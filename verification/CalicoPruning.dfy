/**
 Exactly when a policy is out of reach, so exactly when the audit's rows are true; and deleting what
 a true row reports changes no verdict.
 */
module CalicoPruning {
  import opened Basics
  import opened Ordering
  import opened Calico

  ghost predicate NoZeroOrder(policies: seq<Policy>) {
    forall i :: 0 <= i < |policies| ==> policies[i].order != Some(0.0)
  }

  // ------------------------------------------------------------------- reach

  /** A rule that decides every packet: nothing narrows it, and it is no Log. */
  predicate DecidesAll(rule: Rule) {
    rule.source.None? && rule.destination.None? && rule.protocol.None? && rule.action != Log
  }

  /** In this direction nothing gets past the policy. */
  predicate Stops(p: Policy, d: Direction) {
    exists i :: 0 <= i < |Rules(p, d)| && DecidesAll(Rules(p, d)[i])
  }

  lemma {:induction false} RuleDecides(rules: seq<Rule>, packet: Packet, m: Meaning, i: nat)
    requires i < |rules| && DecidesAll(rules[i])
    ensures Decision(rules, packet, m).Some?
  {
    if i > 0 {
      RuleDecides(rules[1..], packet, m, i - 1);
    }
  }

  lemma StopsDecides(p: Policy, d: Direction, packet: Packet, m: Meaning)
    requires Stops(p, d)
    ensures Decision(Rules(p, d), packet, m).Some?
  {
    var i :| 0 <= i < |Rules(p, d)| && DecidesAll(Rules(p, d)[i]);
    RuleDecides(Rules(p, d), packet, m, i);
  }

  /** Evaluation gets as far as policy `k`: it applies, and no earlier one that applies decides. */
  predicate Reached(policies: seq<Policy>, k: nat, d: Direction, endpoint: int, packet: Packet, m: Meaning)
    requires k < |policies|
  {
    && Applies(policies[k], endpoint, m)
    && forall j :: 0 <= j < k && Applies(policies[j], endpoint, m) ==>
         Decision(Rules(policies[j], d), packet, m).None?
  }

  function WithRules(p: Policy, d: Direction, rules: seq<Rule>): Policy {
    if d == Ingress then p.(ingress := rules) else p.(egress := rules)
  }

  lemma ReachedRest(policies: seq<Policy>, k: nat, d: Direction, endpoint: int, packet: Packet, m: Meaning)
    requires 0 < k < |policies|
    ensures Reached(policies, k, d, endpoint, packet, m) <==>
      && (Applies(policies[0], endpoint, m) ==> Decision(Rules(policies[0], d), packet, m).None?)
      && Reached(policies[1..], k - 1, d, endpoint, packet, m)
  {
    var rest := policies[1..];
    assert forall j :: 0 <= j < k ==> rest[j] == policies[j + 1];
    assert forall j :: 0 < j < k ==> policies[j] == rest[j - 1];
  }

  /** What a policy that is reached decides is the verdict. */
  lemma {:induction false} ReachedDecides(policies: seq<Policy>, k: nat, d: Direction, endpoint: int, packet: Packet,
                                          m: Meaning, selected: bool)
    requires k < |policies| && Reached(policies, k, d, endpoint, packet, m)
    requires Decision(Rules(policies[k], d), packet, m).Some?
    ensures Walk(policies, d, endpoint, packet, m, selected) == Decision(Rules(policies[k], d), packet, m).value
    decreases k
  {
    if k > 0 {
      ReachedRest(policies, k, d, endpoint, packet, m);
      assert policies[1..][k - 1] == policies[k];
      ReachedDecides(policies[1..], k - 1, d, endpoint, packet, m, selected || Applies(policies[0], endpoint, m));
    }
  }

  /** A policy that is not reached may have any rules. */
  lemma {:induction false} UnreachedIsIdle(policies: seq<Policy>, k: nat, d: Direction, endpoint: int, packet: Packet,
                                           m: Meaning, selected: bool, rules: seq<Rule>)
    requires k < |policies| && !Reached(policies, k, d, endpoint, packet, m)
    ensures Walk(policies[k := WithRules(policies[k], d, rules)], d, endpoint, packet, m, selected)
         == Walk(policies, d, endpoint, packet, m, selected)
    decreases k
  {
    var changed := policies[k := WithRules(policies[k], d, rules)];
    if k == 0 {
      assert changed[1..] == policies[1..];
    } else {
      var first := Applies(policies[0], endpoint, m);
      assert changed[0] == policies[0];
      assert changed[1..] == policies[1..][k - 1 := WithRules(policies[1..][k - 1], d, rules)];
      ReachedRest(policies, k, d, endpoint, packet, m);
      if !first || Decision(Rules(policies[0], d), packet, m).None? {
        UnreachedIsIdle(policies[1..], k - 1, d, endpoint, packet, m, selected || first, rules);
      }
    }
  }

  /** Reached means that the policy's own rules can make a difference to this packet. */
  lemma ReachedIffMatters(policies: seq<Policy>, k: nat, d: Direction, endpoint: int, packet: Packet, m: Meaning)
    requires k < |policies|
    ensures Reached(policies, k, d, endpoint, packet, m) <==>
      exists a, b ::
        Walk(policies[k := WithRules(policies[k], d, a)], d, endpoint, packet, m, false)
        != Walk(policies[k := WithRules(policies[k], d, b)], d, endpoint, packet, m, false)
  {
    if Reached(policies, k, d, endpoint, packet, m) {
      var allow := policies[k := WithRules(policies[k], d, [ALLOW_ALL])];
      var deny := policies[k := WithRules(policies[k], d, [DENY_ALL])];
      ReachedDecides(allow, k, d, endpoint, packet, m, false);
      ReachedDecides(deny, k, d, endpoint, packet, m, false);
    } else {
      forall rules
        ensures Walk(policies[k := WithRules(policies[k], d, rules)], d, endpoint, packet, m, false)
             == Walk(policies, d, endpoint, packet, m, false)
      {
        UnreachedIsIdle(policies, k, d, endpoint, packet, m, false, rules);
      }
    }
  }

  /** A protocol longer than every protocol the rules name. */
  function OtherProtocol(rules: seq<Rule>): (protocol: string)
    ensures forall i :: 0 <= i < |rules| && rules[i].protocol.Some? ==> |rules[i].protocol.value| < |protocol|
  {
    if rules == [] then "-"
    else OtherProtocol(rules[1..]) + if rules[0].protocol.Some? then rules[0].protocol.value + "-" else ""
  }

  function AllRules(policies: seq<Policy>, d: Direction): seq<Rule> {
    if policies == [] then [] else Rules(policies[0], d) + AllRules(policies[1..], d)
  }

  lemma {:induction false} AmongAllRules(policies: seq<Policy>, d: Direction, j: nat)
    requires j < |policies|
    ensures forall rule :: rule in Rules(policies[j], d) ==> rule in AllRules(policies, d)
  {
    if j > 0 {
      AmongAllRules(policies[1..], d, j - 1);
    }
  }

  /** Where no peer matches and the protocol is none of those named, only a rule that decides all decides. */
  lemma {:induction false} NothingDecides(rules: seq<Rule>, packet: Packet, m: Meaning)
    requires forall i :: 0 <= i < |rules| ==> !DecidesAll(rules[i])
    requires forall i :: 0 <= i < |rules| && rules[i].protocol.Some? ==> rules[i].protocol.value != packet.protocol
    requires forall peer, who :: !m.matches(peer, who)
    ensures Decision(rules, packet, m).None?
  {
    if rules != [] {
      NothingDecides(rules[1..], packet, m);
    }
  }

  /** Only this selector selects, and no peer matches. */
  function Only(selector: string): Meaning {
    Meaning((s: string, endpoint: int) => s == selector, (peer: Peer, who: int) => false)
  }

  /** Some earlier policy on the same selector stops everything. */
  predicate Stopped(policies: seq<Policy>, k: nat, d: Direction)
    requires k < |policies|
  {
    exists j :: 0 <= j < k && SelectorOf(policies[j]) == SelectorOf(policies[k]) && Stops(policies[j], d)
  }

  lemma UnstoppedIsReached(policies: seq<Policy>, k: nat, d: Direction)
    requires k < |policies| && !Stopped(policies, k, d)
    ensures var packet := Packet(0, 0, OtherProtocol(AllRules(policies, d)));
      Reached(policies, k, d, 0, packet, Only(SelectorOf(policies[k])))
  {
    var packet := Packet(0, 0, OtherProtocol(AllRules(policies, d)));
    var m := Only(SelectorOf(policies[k]));
    forall j | 0 <= j < k && Applies(policies[j], 0, m) ensures Decision(Rules(policies[j], d), packet, m).None? {
      var rules := Rules(policies[j], d);
      AmongAllRules(policies, d, j);
      forall i | 0 <= i < |rules| && rules[i].protocol.Some? ensures rules[i].protocol.value != packet.protocol {
        assert rules[i] in AllRules(policies, d);
      }
      NothingDecides(rules, packet, m);
    }
  }

  /**
   In evaluation order, a policy is reached by no packet at any endpoint, whatever selectors and
   peers mean, if and only if an earlier policy on its selector has a rule that nothing narrows.
   */
  lemma UnreachableIff(policies: seq<Policy>, k: nat, d: Direction)
    requires k < |policies|
    ensures (forall endpoint, packet, m :: !Reached(policies, k, d, endpoint, packet, m)) <==> Stopped(policies, k, d)
  {
    if Stopped(policies, k, d) {
      var j :| 0 <= j < k && SelectorOf(policies[j]) == SelectorOf(policies[k]) && Stops(policies[j], d);
      forall endpoint, packet, m ensures !Reached(policies, k, d, endpoint, packet, m) {
        StopsDecides(policies[j], d, packet, m);
      }
    } else {
      UnstoppedIsReached(policies, k, d);
    }
  }

  // ------------------------------------------------------------------- order

  lemma {:induction false} InsertAlike(x: Policy, ys: seq<Policy>)
    requires x.order != Some(0.0) && NoZeroOrder(ys)
    ensures Insert(x, ys, AuditedBefore) == Insert(x, ys, EvaluatedBefore)
  {
    if ys != [] {
      assert AuditedBefore(x, ys[0]) <==> EvaluatedBefore(x, ys[0]);
      InsertAlike(x, ys[1..]);
    }
  }

  /** Without orders of 0, the audit looks at policies in the order they are evaluated in. */
  lemma {:induction false} SortAlike(policies: seq<Policy>)
    requires NoZeroOrder(policies)
    ensures StableSort(policies, AuditedBefore) == StableSort(policies, EvaluatedBefore)
  {
    if policies != [] {
      SortAlike(policies[1..]);
      var sorted := StableSort(policies[1..], EvaluatedBefore);
      SortElements(policies[1..], EvaluatedBefore);
      forall i | 0 <= i < |sorted| ensures sorted[i].order != Some(0.0) {
        assert sorted[i] in policies[1..];
      }
      InsertAlike(policies[0], sorted);
    }
  }

  /** A group, in the audit's order, is the evaluation order with other selectors left out. */
  lemma GroupIsFiltered(policies: seq<Policy>, selector: string)
    requires NoZeroOrder(policies)
    ensures Group(policies, selector) == OfSelector(StableSort(policies, EvaluatedBefore), selector)
  {
    var p := (q: Policy) => SelectorOf(q) == selector;
    OrdersArePreorders();
    FilterCommutesWithSort(policies, EvaluatedBefore, p);
    FilterElements(policies, p);
    var kept := Filter(policies, p);
    forall i | 0 <= i < |kept| ensures kept[i].order != Some(0.0) {
      assert kept[i] in policies;
    }
    SortAlike(kept);
  }

  /** Filtering keeps the order of what it keeps. */
  lemma {:induction false} FilteredOrder(xs: seq<Policy>, p: Policy -> bool, i: nat, j: nat) returns (a: nat, b: nat)
    requires i < j < |Filter(xs, p)|
    ensures a < b < |xs| && xs[a] == Filter(xs, p)[i] && xs[b] == Filter(xs, p)[j]
    decreases |xs|
  {
    if p(xs[0]) {
      var rest := Filter(xs[1..], p);
      if i == 0 {
        FilterElements(xs[1..], p);
        assert rest[j - 1] in xs[1..];
        var k :| 0 <= k < |xs[1..]| && xs[1..][k] == rest[j - 1];
        a, b := 0, k + 1;
      } else {
        a, b := FilteredOrder(xs[1..], p, i - 1, j - 1);
        a, b := a + 1, b + 1;
      }
    } else {
      a, b := FilteredOrder(xs[1..], p, i, j);
      a, b := a + 1, b + 1;
    }
  }

  // -------------------------------------------------------- every evaluation

  /** An order policies may be evaluated in: lower orders first, equal ones, or none, as it happens. */
  ghost predicate EvaluationOrder(policies: seq<Policy>, sorted: seq<Policy>) {
    multiset(sorted) == multiset(policies) && SortedBy(sorted, EvaluatedBefore)
  }

  /** The verdict may be `action`. */
  ghost predicate PossibleVerdict(policies: seq<Policy>, d: Direction, endpoint: int, packet: Packet, m: Meaning,
                                  action: Action)
  {
    exists sorted :: EvaluationOrder(policies, sorted) && Walk(sorted, d, endpoint, packet, m, false) == action
  }

  lemma ListedInOrder(policies: seq<Policy>)
    ensures EvaluationOrder(policies, StableSort(policies, EvaluatedBefore))
  {
    OrdersArePreorders();
    SortElements(policies, EvaluatedBefore);
    SortSorted(policies, EvaluatedBefore);
  }

  /** No packet gets to the policy, in whatever order, at any endpoint and whatever selectors and peers mean. */
  ghost predicate Unreachable(policies: seq<Policy>, d: Direction, p: Policy) {
    forall sorted, k, endpoint, packet, m ::
      EvaluationOrder(policies, sorted) && 0 <= k < |sorted| && sorted[k] == p ==>
      !Reached(sorted, k, d, endpoint, packet, m)
  }

  /** `q` stops everything on the selector of `p` and has a strictly lower order. */
  predicate StoppedBy(p: Policy, q: Policy, d: Direction) {
    SelectorOf(q) == SelectorOf(p) && !EvaluatedBefore(p, q) && Stops(q, d)
  }

  lemma MemberOfBoth(policies: seq<Policy>, sorted: seq<Policy>)
    requires multiset(sorted) == multiset(policies)
    ensures forall p :: p in sorted <==> p in policies
  {
    forall p ensures p in sorted <==> p in policies {
      assert p in multiset(sorted) <==> p in multiset(policies);
    }
  }

  /** A strictly lower order stands before, in whatever order. */
  lemma StoppedInOrder(policies: seq<Policy>, sorted: seq<Policy>, k: nat, q: Policy, d: Direction)
    requires EvaluationOrder(policies, sorted) && k < |sorted| && q in policies && StoppedBy(sorted[k], q, d)
    ensures Stopped(sorted, k, d)
  {
    MemberOfBoth(policies, sorted);
    var j :| 0 <= j < |sorted| && sorted[j] == q;
  }

  /** Inserted, an element stands behind nothing it may stand before. */
  lemma {:induction false} InsertedFirst(p: Policy, ys: seq<Policy>) returns (k: nat)
    ensures var sorted := Insert(p, ys, EvaluatedBefore);
      && k < |sorted| && sorted[k] == p
      && forall j :: 0 <= j < k ==> !EvaluatedBefore(p, sorted[j])
  {
    if ys == [] || EvaluatedBefore(p, ys[0]) {
      k := 0;
    } else {
      k := InsertedFirst(p, ys[1..]);
      k := k + 1;
    }
  }

  /** Some evaluation order has the policy ahead of all that share its order. */
  lemma AheadOfTies(policies: seq<Policy>, p: Policy) returns (sorted: seq<Policy>, k: nat)
    requires p in policies
    ensures EvaluationOrder(policies, sorted) && k < |sorted| && sorted[k] == p
    ensures forall j :: 0 <= j < k ==> !EvaluatedBefore(p, sorted[j])
  {
    var i :| 0 <= i < |policies| && policies[i] == p;
    var rest := policies[..i] + policies[i + 1..];
    assert policies == policies[..i] + [p] + policies[i + 1..];
    ListedInOrder(rest);
    OrdersArePreorders();
    InsertElements(p, StableSort(rest, EvaluatedBefore), EvaluatedBefore);
    InsertSorted(p, StableSort(rest, EvaluatedBefore), EvaluatedBefore);
    sorted := Insert(p, StableSort(rest, EvaluatedBefore), EvaluatedBefore);
    k := InsertedFirst(p, StableSort(rest, EvaluatedBefore));
  }

  /**
   Exactly when a policy is dead: no packet reaches it in any evaluation order if and only if some
   policy on its selector has a strictly lower order and a rule that nothing narrows and is no Log.
   */
  lemma UnreachableAlwaysIff(policies: seq<Policy>, d: Direction, p: Policy)
    requires p in policies
    ensures Unreachable(policies, d, p) <==> exists q :: q in policies && StoppedBy(p, q, d)
  {
    if q :| q in policies && StoppedBy(p, q, d) {
      forall sorted, k, endpoint, packet, m
        | EvaluationOrder(policies, sorted) && 0 <= k < |sorted| && sorted[k] == p
        ensures !Reached(sorted, k, d, endpoint, packet, m)
      {
        StoppedInOrder(policies, sorted, k, q, d);
        UnreachableIff(sorted, k, d);
      }
    } else {
      var sorted, k := AheadOfTies(policies, p);
      UnreachableIff(sorted, k, d);
      if Stopped(sorted, k, d) {
        var j :| 0 <= j < k && SelectorOf(sorted[j]) == SelectorOf(sorted[k]) && Stops(sorted[j], d);
        MemberOfBoth(policies, sorted);
        assert sorted[j] in policies && StoppedBy(p, sorted[j], d);
      }
    }
  }

  // -------------------------------------------------------------------- rows

  /** What a row of the audit claims, of direction `d`: all it reports is out of reach. */
  ghost predicate RowTrue(policies: seq<Policy>, d: Direction, f: Shadowing) {
    forall p :: p in f.shadowed ==> Unreachable(policies, d, p)
  }

  /** `q` stops everything and has a strictly lower order than every policy the row reports. */
  predicate StopsAheadOf(q: Policy, shadowed: seq<Policy>, d: Direction) {
    Stops(q, d) && forall i :: 0 <= i < |shadowed| ==> !EvaluatedBefore(shadowed[i], q)
  }

  lemma GroupMembers(policies: seq<Policy>, selector: string)
    ensures forall p :: p in Group(policies, selector) <==> p in policies && SelectorOf(p) == selector
  {
    FilterElements(policies, (q: Policy) => SelectorOf(q) == selector);
    SortElements(OfSelector(policies, selector), AuditedBefore);
  }

  lemma {:induction false} TerminalHasFollowers(ordered: seq<Policy>)
    requires FirstTerminal(ordered) < |ordered|
    ensures FirstTerminal(ordered) + 1 < |ordered| && Terminal(ordered[FirstTerminal(ordered)])
  {
    if !(Terminal(ordered[0]) && |ordered| > 1) {
      TerminalHasFollowers(ordered[1..]);
    }
  }

  /** One of several policies comes before all the others. */
  lemma {:induction false} EarliestOf(ps: seq<Policy>) returns (first: Policy)
    requires ps != []
    ensures first in ps && forall i :: 0 <= i < |ps| ==> EvaluatedBefore(first, ps[i])
  {
    first := ps[0];
    if |ps| > 1 {
      var next := EarliestOf(ps[1..]);
      OrdersArePreorders();
      if !EvaluatedBefore(first, next) {
        first := next;
      }
      forall i | 0 <= i < |ps| ensures EvaluatedBefore(first, ps[i]) {
        assert i > 0 ==> EvaluatedBefore(next, ps[1..][i - 1]);
      }
    }
  }

  lemma RowMembers(policies: seq<Policy>, selector: string, f: Shadowing)
    requires FindingFor(policies, selector, f)
    ensures f.shadowed != []
    ensures forall p :: p in f.shadowed ==> p in policies && SelectorOf(p) == selector
  {
    var ordered := Group(policies, selector);
    GroupMembers(policies, selector);
    TerminalHasFollowers(ordered);
    forall p | p in f.shadowed ensures p in ordered {
    }
  }

  lemma NotReportedIsEarly(policies: seq<Policy>, selector: string, f: Shadowing, i: nat)
    requires FindingFor(policies, selector, f) && i < |Group(policies, selector)|
    requires Group(policies, selector)[i] !in f.shadowed
    ensures i <= FirstTerminal(Group(policies, selector))
  {
    var ordered := Group(policies, selector);
    var at := FirstTerminal(ordered);
    assert forall k :: 0 <= k < |f.shadowed| ==> f.shadowed[k] == ordered[at + 1 + k];
  }

  lemma AheadOfAll(first: Policy, shadowed: seq<Policy>, q: Policy)
    requires (forall i :: 0 <= i < |shadowed| ==> EvaluatedBefore(first, shadowed[i])) && !EvaluatedBefore(first, q)
    ensures forall i :: 0 <= i < |shadowed| ==> !EvaluatedBefore(shadowed[i], q)
    ensures q !in shadowed
  {
    OrdersArePreorders();
  }

  /** A true row has one policy that stands, by its order, before all those reported. */
  lemma TrueRowHasStopper(policies: seq<Policy>, selector: string, f: Shadowing, d: Direction) returns (j: nat)
    requires FindingFor(policies, selector, f) && RowTrue(policies, d, f)
    ensures j <= FirstTerminal(Group(policies, selector)) && StopsAheadOf(Group(policies, selector)[j], f.shadowed, d)
  {
    RowMembers(policies, selector, f);
    GroupMembers(policies, selector);
    var first := EarliestOf(f.shadowed);
    UnreachableAlwaysIff(policies, d, first);
    var q :| q in policies && StoppedBy(first, q, d);
    AheadOfAll(first, f.shadowed, q);
    assert q in Group(policies, selector);
    var i :| 0 <= i < |Group(policies, selector)| && Group(policies, selector)[i] == q;
    j := i;
    NotReportedIsEarly(policies, selector, f, j);
  }

  /**
   Exactly when a row of the audit is true: in a direction, all the policies it reports are out of
   reach in every evaluation order if and only if its catch-all Deny, or a policy audited before it,
   has in that direction a rule with no source, destination or protocol that is no Log, and a
   strictly lower order than each of them.
   */
  lemma RowTrueIff(policies: seq<Policy>, selector: string, f: Shadowing, d: Direction)
    requires FindingFor(policies, selector, f)
    ensures var ordered := Group(policies, selector);
      && ordered[FirstTerminal(ordered)] == f.terminal
      && (RowTrue(policies, d, f) <==>
           exists j :: 0 <= j <= FirstTerminal(ordered) && StopsAheadOf(ordered[j], f.shadowed, d))
  {
    var ordered := Group(policies, selector);
    RowMembers(policies, selector, f);
    GroupMembers(policies, selector);
    if RowTrue(policies, d, f) {
      var j := TrueRowHasStopper(policies, selector, f, d);
    } else {
      var p :| p in f.shadowed && !Unreachable(policies, d, p);
      UnreachableAlwaysIff(policies, d, p);
      forall j | 0 <= j <= FirstTerminal(ordered) ensures !StopsAheadOf(ordered[j], f.shadowed, d) {
        assert ordered[j] in ordered;
        assert !StoppedBy(p, ordered[j], d);
      }
    }
  }

  /** Among the policies of one selector, in the audit's order, one up to position `at` stops everything. */
  predicate StopsBy(ordered: seq<Policy>, at: int, d: Direction) {
    exists j :: 0 <= j < |ordered| && j <= at && Stops(ordered[j], d)
  }

  /** Different orders, none of them 0, are strict: what is audited earlier is evaluated earlier. */
  lemma AuditedEarlier(ordered: seq<Policy>, j: nat, i: nat)
    requires SortedBy(ordered, AuditedBefore) && NoZeroOrder(ordered) && j < i < |ordered|
    requires ordered[j].order != ordered[i].order
    ensures !EvaluatedBefore(ordered[i], ordered[j])
  {
    assert AuditedBefore(ordered[j], ordered[i]);
  }

  ghost predicate OrdersDiffer(ordered: seq<Policy>) {
    NoZeroOrder(ordered) && forall i, j :: 0 <= i < j < |ordered| ==> ordered[i].order != ordered[j].order
  }

  lemma AheadByRules(ordered: seq<Policy>, at: nat, d: Direction)
    requires SortedBy(ordered, AuditedBefore) && OrdersDiffer(ordered) && at < |ordered|
    ensures (exists j :: 0 <= j <= at && StopsAheadOf(ordered[j], ordered[at + 1..], d)) <==> StopsBy(ordered, at, d)
  {
    var later := ordered[at + 1..];
    forall j | 0 <= j <= at ensures StopsAheadOf(ordered[j], later, d) <==> Stops(ordered[j], d) {
      forall i | 0 <= i < |later| ensures !EvaluatedBefore(later[i], ordered[j]) {
        assert later[i] == ordered[at + 1 + i];
        AuditedEarlier(ordered, j, at + 1 + i);
      }
    }
  }

  /** On a selector whose policies all have different orders, none of them 0, only the rules decide. */
  lemma RowTrueWhenOrdersDiffer(policies: seq<Policy>, selector: string, f: Shadowing, d: Direction)
    requires FindingFor(policies, selector, f) && OrdersDiffer(Group(policies, selector))
    ensures RowTrue(policies, d, f) <==> StopsBy(Group(policies, selector), FirstTerminal(Group(policies, selector)), d)
  {
    RowTrueIff(policies, selector, f, d);
    OrdersArePreorders();
    SortSorted(OfSelector(policies, selector), AuditedBefore);
    AheadByRules(Group(policies, selector), FirstTerminal(Group(policies, selector)), d);
  }

  // ----------------------------------------------------------------- pruning

  /** Each dropped policy that applies comes after a kept one that applies and stops everything. */
  ghost predicate Guarded(policies: seq<Policy>, keep: Policy -> bool, d: Direction, endpoint: int, m: Meaning) {
    forall k :: 0 <= k < |policies| && !keep(policies[k]) && Applies(policies[k], endpoint, m) ==>
      exists g :: Guards(policies, keep, d, endpoint, m, g, k)
  }

  ghost predicate Guards(policies: seq<Policy>, keep: Policy -> bool, d: Direction, endpoint: int, m: Meaning,
                         g: int, k: int)
  {
    0 <= g < k <= |policies| && keep(policies[g]) && Applies(policies[g], endpoint, m) && Stops(policies[g], d)
  }

  lemma GuardedRest(policies: seq<Policy>, keep: Policy -> bool, d: Direction, endpoint: int, m: Meaning)
    requires policies != [] && Guarded(policies, keep, d, endpoint, m)
    requires !(keep(policies[0]) && Applies(policies[0], endpoint, m) && Stops(policies[0], d))
    ensures Guarded(policies[1..], keep, d, endpoint, m)
  {
    forall k | 0 <= k < |policies| - 1 && !keep(policies[1..][k]) && Applies(policies[1..][k], endpoint, m)
      ensures exists g :: Guards(policies[1..], keep, d, endpoint, m, g, k)
    {
      assert policies[1..][k] == policies[k + 1];
      var g :| Guards(policies, keep, d, endpoint, m, g, k + 1);
      assert g > 0 && policies[1..][g - 1] == policies[g];
      assert Guards(policies[1..], keep, d, endpoint, m, g - 1, k);
    }
  }

  /** Dropping guarded policies leaves the walk's result as it was. */
  lemma {:induction false} GuardedWalk(policies: seq<Policy>, keep: Policy -> bool, d: Direction, endpoint: int,
                                       packet: Packet, m: Meaning, selected: bool)
    requires Guarded(policies, keep, d, endpoint, m)
    ensures Walk(Filter(policies, keep), d, endpoint, packet, m, selected)
         == Walk(policies, d, endpoint, packet, m, selected)
    decreases |policies|
  {
    if policies != [] {
      var head, rest := policies[0], policies[1..];
      var applies := Applies(head, endpoint, m);
      if keep(head) {
        assert ([head] + Filter(rest, keep))[1..] == Filter(rest, keep);
        if applies && Stops(head, d) {
          StopsDecides(head, d, packet, m);
        } else {
          GuardedRest(policies, keep, d, endpoint, m);
          GuardedWalk(rest, keep, d, endpoint, packet, m, selected || applies);
        }
      } else {
        assert !applies;
        GuardedRest(policies, keep, d, endpoint, m);
        GuardedWalk(rest, keep, d, endpoint, packet, m, selected);
      }
    }
  }

  /** Up to position `j`, the first policy of a selector that stops everything. */
  lemma {:induction false} FirstStopper(sorted: seq<Policy>, selector: string, d: Direction, j: nat) returns (g: nat)
    requires j < |sorted| && SelectorOf(sorted[j]) == selector && Stops(sorted[j], d)
    ensures g <= j && SelectorOf(sorted[g]) == selector && Stops(sorted[g], d)
    ensures forall i :: 0 <= i < g ==> !(SelectorOf(sorted[i]) == selector && Stops(sorted[i], d))
  {
    if i :| 0 <= i < j && SelectorOf(sorted[i]) == selector && Stops(sorted[i], d) {
      g := FirstStopper(sorted, selector, d, i);
    } else {
      g := j;
    }
  }

  /** Only policies that are dead are dropped. */
  ghost predicate DropsDead(policies: seq<Policy>, keep: Policy -> bool, d: Direction) {
    forall p :: p in policies && !keep(p) ==> Unreachable(policies, d, p)
  }

  lemma DeadAreGuarded(policies: seq<Policy>, sorted: seq<Policy>, keep: Policy -> bool, d: Direction, endpoint: int,
                       m: Meaning)
    requires EvaluationOrder(policies, sorted) && DropsDead(policies, keep, d)
    ensures Guarded(sorted, keep, d, endpoint, m)
  {
    MemberOfBoth(policies, sorted);
    forall k | 0 <= k < |sorted| && !keep(sorted[k]) && Applies(sorted[k], endpoint, m)
      ensures exists g :: Guards(sorted, keep, d, endpoint, m, g, k)
    {
      var g := DeadHasGuard(policies, sorted, keep, d, k);
      assert Guards(sorted, keep, d, endpoint, m, g, k);
    }
  }

  /** The first of the selector to stop everything is reached by some packet, so it is kept. */
  lemma DeadHasGuard(policies: seq<Policy>, sorted: seq<Policy>, keep: Policy -> bool, d: Direction, k: nat)
    returns (g: nat)
    requires EvaluationOrder(policies, sorted) && DropsDead(policies, keep, d)
    requires k < |sorted| && !keep(sorted[k])
    ensures g < k && keep(sorted[g]) && SelectorOf(sorted[g]) == SelectorOf(sorted[k]) && Stops(sorted[g], d)
  {
    MemberOfBoth(policies, sorted);
    assert sorted[k] in policies;
    UnreachableIff(sorted, k, d);
    var j :| 0 <= j < k && SelectorOf(sorted[j]) == SelectorOf(sorted[k]) && Stops(sorted[j], d);
    g := FirstStopper(sorted, SelectorOf(sorted[k]), d, j);
    UnreachableIff(sorted, g, d);
    assert !Stopped(sorted, g, d);
    assert sorted[g] in policies;
  }

  lemma {:induction false} FilterCount(xs: seq<Policy>, keep: Policy -> bool, p: Policy)
    ensures multiset(Filter(xs, keep))[p] == if keep(p) then multiset(xs)[p] else 0
  {
    if xs != [] {
      FilterCount(xs[1..], keep, p);
      assert xs == [xs[0]] + xs[1..];
    }
  }

  lemma FilterMultiset(xs: seq<Policy>, ys: seq<Policy>, keep: Policy -> bool)
    requires multiset(xs) == multiset(ys)
    ensures multiset(Filter(xs, keep)) == multiset(Filter(ys, keep))
  {
    forall p ensures multiset(Filter(xs, keep))[p] == multiset(Filter(ys, keep))[p] {
      FilterCount(xs, keep, p);
      FilterCount(ys, keep, p);
    }
  }

  /** Leaving policies out of an evaluation order leaves one of the policies left. */
  lemma PrunedOrder(policies: seq<Policy>, sorted: seq<Policy>, keep: Policy -> bool)
    requires EvaluationOrder(policies, sorted)
    ensures EvaluationOrder(Filter(policies, keep), Filter(sorted, keep))
  {
    FilterMultiset(sorted, policies, keep);
    var kept := Filter(sorted, keep);
    forall i, j | 0 <= i < j < |kept| ensures EvaluatedBefore(kept[i], kept[j]) {
      var a, b := FilteredOrder(sorted, keep, i, j);
    }
  }

  lemma {:induction false} SortedStays(xs: seq<Policy>)
    requires SortedBy(xs, EvaluatedBefore)
    ensures StableSort(xs, EvaluatedBefore) == xs
  {
    if xs != [] {
      SortedStays(xs[1..]);
      assert |xs| > 1 ==> EvaluatedBefore(xs[0], xs[1]);
    }
  }

  lemma {:induction false} FilterNone(xs: seq<Policy>, keep: Policy -> bool)
    requires forall i :: 0 <= i < |xs| ==> !keep(xs[i])
    ensures Filter(xs, keep) == []
  {
    if xs != [] {
      FilterNone(xs[1..], keep);
    }
  }

  lemma PutBack(policies: seq<Policy>, kept: seq<Policy>, dropped: seq<Policy>, keep: Policy -> bool)
    requires multiset(kept) == multiset(Filter(policies, keep)) && dropped == Filter(policies, (p: Policy) => !keep(p))
    ensures multiset(kept + dropped) == multiset(policies)
  {
    forall p ensures multiset(kept + dropped)[p] == multiset(policies)[p] {
      FilterCount(policies, keep, p);
      FilterCount(policies, (q: Policy) => !keep(q), p);
    }
  }

  /** Every evaluation order of the policies left comes from one of them all. */
  lemma UnprunedOrder(policies: seq<Policy>, kept: seq<Policy>, keep: Policy -> bool) returns (sorted: seq<Policy>)
    requires EvaluationOrder(Filter(policies, keep), kept)
    ensures EvaluationOrder(policies, sorted) && Filter(sorted, keep) == kept
  {
    var dropped := Filter(policies, (p: Policy) => !keep(p));
    sorted := StableSort(kept + dropped, EvaluatedBefore);
    PutBack(policies, kept, dropped, keep);
    ListedInOrder(kept + dropped);
    OrdersArePreorders();
    FilterCommutesWithSort(kept + dropped, EvaluatedBefore, keep);
    FilterAppend(kept, dropped, keep);
    KeptAndDropped(policies, kept, dropped, keep);
    assert kept + [] == kept;
    SortedStays(kept);
  }

  lemma KeptAndDropped(policies: seq<Policy>, kept: seq<Policy>, dropped: seq<Policy>, keep: Policy -> bool)
    requires multiset(kept) == multiset(Filter(policies, keep)) && dropped == Filter(policies, (p: Policy) => !keep(p))
    ensures Filter(kept, keep) == kept && Filter(dropped, keep) == []
  {
    FilterElements(policies, keep);
    FilterElements(policies, (p: Policy) => !keep(p));
    MemberOfBoth(Filter(policies, keep), kept);
    FilterAll(kept, keep);
    forall i | 0 <= i < |dropped| ensures !keep(dropped[i]) {
      assert dropped[i] in dropped;
    }
    FilterNone(dropped, keep);
  }

  /**
   Shadow pruning preserves meaning: in each direction, deleting policies that are dead there, any or
   all of them, changes no packet's verdict in any evaluation order at any endpoint, other selectors
   interleaved as they may be, and whatever selectors and peers mean.
   */
  lemma PruningKeepsWalks(policies: seq<Policy>, sorted: seq<Policy>, keep: Policy -> bool, d: Direction, endpoint: int,
                          packet: Packet, m: Meaning)
    requires EvaluationOrder(policies, sorted) && DropsDead(policies, keep, d)
    ensures EvaluationOrder(Filter(policies, keep), Filter(sorted, keep))
    ensures Walk(Filter(sorted, keep), d, endpoint, packet, m, false) == Walk(sorted, d, endpoint, packet, m, false)
  {
    PrunedOrder(policies, sorted, keep);
    DeadAreGuarded(policies, sorted, keep, d, endpoint, m);
    GuardedWalk(sorted, keep, d, endpoint, packet, m, false);
  }

  /** Reported by a row that is true in direction `d`. */
  ghost predicate Dead(policies: seq<Policy>, d: Direction, p: Policy) {
    exists f :: FindingFor(policies, SelectorOf(p), f) && p in f.shadowed && RowTrue(policies, d, f)
  }

  ghost function Pruned(policies: seq<Policy>, d: Direction): seq<Policy> {
    Filter(policies, (p: Policy) => !Dead(policies, d, p))
  }

  /**
   So deleting every policy reported by a row that is true in a direction leaves every packet the
   verdicts it may get there, and the one it gets when equal orders are taken as listed.
   */
  lemma PruningKeepsVerdicts(policies: seq<Policy>, d: Direction, endpoint: int, packet: Packet, m: Meaning)
    ensures forall action ::
      PossibleVerdict(Pruned(policies, d), d, endpoint, packet, m, action) <==>
      PossibleVerdict(policies, d, endpoint, packet, m, action)
    ensures Verdict(Pruned(policies, d), d, endpoint, packet, m) == Verdict(policies, d, endpoint, packet, m)
  {
    var keep := (p: Policy) => !Dead(policies, d, p);
    assert Pruned(policies, d) == Filter(policies, keep);
    forall sorted | EvaluationOrder(policies, sorted)
      ensures EvaluationOrder(Pruned(policies, d), Filter(sorted, keep))
      ensures Walk(Filter(sorted, keep), d, endpoint, packet, m, false) == Walk(sorted, d, endpoint, packet, m, false)
    {
      PruningKeepsWalks(policies, sorted, keep, d, endpoint, packet, m);
    }
    forall action | PossibleVerdict(Pruned(policies, d), d, endpoint, packet, m, action)
      ensures PossibleVerdict(policies, d, endpoint, packet, m, action)
    {
      var kept :| EvaluationOrder(Pruned(policies, d), kept) && Walk(kept, d, endpoint, packet, m, false) == action;
      var sorted := UnprunedOrder(policies, kept, keep);
    }
    OrdersArePreorders();
    ListedInOrder(policies);
    FilterCommutesWithSort(policies, EvaluatedBefore, keep);
  }

  // ------------------------------------------------------- what is not safe

  lemma OneSelected(q: Policy, rest: seq<Policy>)
    ensures OfSelector([q] + rest, SelectorOf(q)) == [q] + OfSelector(rest, SelectorOf(q))
    ensures OfSelector([], SelectorOf(q)) == []
  {
    assert ([q] + rest)[1..] == rest;
  }

  lemma TwoSorted(a: Policy, b: Policy, le: (Policy, Policy) -> bool)
    ensures StableSort([a], le) == [a]
    ensures StableSort([a, b], le) == if le(a, b) then [a, b] else [b, a]
  {
    assert [a, b][1..] == [b] && [b][1..] == [] && [a][1..] == [];
    assert StableSort([b], le) == [b];
    if !le(a, b) {
      assert Insert(a, [b], le) == [b] + Insert(a, [], le);
    }
  }

  /** Of two policies on one selector, the audit reports the second behind a terminal first. */
  lemma PairReported(t: Policy, q: Policy)
    requires SelectorOf(t) == SelectorOf(q) && AuditedBefore(t, q) && Terminal(t)
    ensures FindingFor([t, q], SelectorOf(q), FindingIn([t, q], 0)) && FindingIn([t, q], 0).shadowed == [q]
    ensures FindingFor([q, t], SelectorOf(q), FindingIn([t, q], 0)) <== !AuditedBefore(q, t)
  {
    OneSelected(q, []);
    OneSelected(t, []);
    OneSelected(t, [q]);
    OneSelected(q, [t]);
    assert [t] + [q] == [t, q] && [q] + [t] == [q, t] && [q] + [] == [q] && [t] + [] == [t];
    TwoSorted(t, q, AuditedBefore);
    TwoSorted(q, t, AuditedBefore);
    assert FirstTerminal([t, q]) == 0;
  }

  lemma OnlyOrder(t: Policy, sorted: seq<Policy>)
    requires EvaluationOrder([t], sorted)
    ensures sorted == StableSort([t], EvaluatedBefore) == [t]
  {
    assert |sorted| == |multiset(sorted)| == 1;
    MemberOfBoth([t], sorted);
    assert sorted[0] in sorted;
    TwoSorted(t, t, EvaluatedBefore);
  }

  lemma WalkOfTwo(a: Policy, b: Policy, d: Direction, endpoint: int, packet: Packet, m: Meaning)
    requires Applies(a, endpoint, m) && Applies(b, endpoint, m) && EvaluatedBefore(a, b)
    ensures var first, second := Decision(Rules(a, d), packet, m), Decision(Rules(b, d), packet, m);
      && Verdict([a, b], d, endpoint, packet, m) ==
        (if first.Some? then first.value else if second.Some? then second.value else Deny)
      && Verdict([a], d, endpoint, packet, m) == (if first.Some? then first.value else Deny)
  {
    TwoSorted(a, b, EvaluatedBefore);
    assert [a, b][1..] == [b] && [b][1..] == [] && [a][1..] == [];
    assert Walk([], d, endpoint, packet, m, true) == Deny;
    assert Walk([b], d, endpoint, packet, m, true) ==
      (var second := Decision(Rules(b, d), packet, m); if second.Some? then second.value else Deny);
  }

  const DENY_ALL := Rule(Deny, None, None, None)
  const DENY_TCP := Rule(Deny, None, None, Some("TCP"))
  const ALLOW_ALL := Rule(Allow, None, None, None)

  /** A catch-all Deny for ingress hides nothing for egress, yet the audit reports it does. */
  lemma IngressDenyLeavesEgress(endpoint: int, packet: Packet, m: Meaning)
    requires m.selects("s", endpoint)
    ensures var t, q := Policy("a", "s", Some(1.0), [DENY_ALL], []), Policy("b", "s", Some(2.0), [], [ALLOW_ALL]);
      && (exists f :: FindingFor([t, q], "s", f) && f.shadowed == [q])
      && Verdict([t, q], Egress, endpoint, packet, m) == Allow
      && Verdict([t], Egress, endpoint, packet, m) == Deny
  {
    var t, q := Policy("a", "s", Some(1.0), [DENY_ALL], []), Policy("b", "s", Some(2.0), [], [ALLOW_ALL]);
    assert SelectorOf(t) == "s" && SelectorOf(q) == "s";
    assert Unconstrained(t.ingress[0]);
    PairReported(t, q);
    WalkOfTwo(t, q, Egress, endpoint, packet, m);
  }

  /** A Deny narrowed to one protocol hides nothing of another. */
  lemma ProtocolDenyLeavesOthers(endpoint: int, packet: Packet, m: Meaning)
    requires m.selects("s", endpoint) && packet.protocol != "TCP"
    ensures var t, q := Policy("a", "s", Some(1.0), [DENY_TCP], []), Policy("b", "s", Some(2.0), [ALLOW_ALL], []);
      && (exists f :: FindingFor([t, q], "s", f) && f.shadowed == [q])
      && Verdict([t, q], Ingress, endpoint, packet, m) == Allow
      && Verdict([t], Ingress, endpoint, packet, m) == Deny
  {
    var t, q := Policy("a", "s", Some(1.0), [DENY_TCP], []), Policy("b", "s", Some(2.0), [ALLOW_ALL], []);
    assert SelectorOf(t) == "s" && SelectorOf(q) == "s";
    assert Unconstrained(t.ingress[0]);
    assert t.ingress[1..] == [];
    PairReported(t, q);
    WalkOfTwo(t, q, Ingress, endpoint, packet, m);
  }

  lemma TiedMayComeFirst(q: Policy, t: Policy, d: Direction, endpoint: int, packet: Packet, m: Meaning)
    requires Applies(q, endpoint, m) && Applies(t, endpoint, m) && EvaluatedBefore(q, t)
    requires Decision(Rules(q, d), packet, m).Some?
    ensures PossibleVerdict([t, q], d, endpoint, packet, m, Decision(Rules(q, d), packet, m).value)
  {
    WalkOfTwo(q, t, d, endpoint, packet, m);
    ListedInOrder([q, t]);
    assert [q, t] == [q] + [t] && [t, q] == [t] + [q];
    assert EvaluationOrder([t, q], StableSort([q, t], EvaluatedBefore));
  }

  /** A policy that shares its order with the catch-all Deny may be evaluated before it, yet is reported. */
  lemma TiedPolicyMatters(endpoint: int, packet: Packet, m: Meaning)
    requires m.selects("s", endpoint)
    ensures var t, q := Policy("b", "s", Some(1.0), [DENY_ALL], []), Policy("a", "s", Some(1.0), [ALLOW_ALL], []);
      && (exists f :: FindingFor([t, q], "s", f) && f.shadowed == [q])
      && Stops(t, Ingress)
      && PossibleVerdict([t, q], Ingress, endpoint, packet, m, Allow)
      && !PossibleVerdict([t], Ingress, endpoint, packet, m, Allow)
  {
    var t, q := Policy("b", "s", Some(1.0), [DENY_ALL], []), Policy("a", "s", Some(1.0), [ALLOW_ALL], []);
    assert SelectorOf(t) == "s" && SelectorOf(q) == "s";
    assert Unconstrained(t.ingress[0]);
    PairReported(t, q);
    TiedMayComeFirst(q, t, Ingress, endpoint, packet, m);
    WalkOfTwo(t, t, Ingress, endpoint, packet, m);
    forall sorted | EvaluationOrder([t], sorted) ensures Walk(sorted, Ingress, endpoint, packet, m, false) == Deny {
      OnlyOrder(t, sorted);
    }
  }

  /** A policy of order 0 is evaluated first but audited last, so a reachable one is reported. */
  lemma OrderZeroMisplaced(endpoint: int, packet: Packet, m: Meaning)
    requires m.selects("s", endpoint)
    ensures var z, t := Policy("z", "s", Some(0.0), [ALLOW_ALL], []), Policy("a", "s", Some(10.0), [DENY_ALL], []);
      && (exists f :: FindingFor([z, t], "s", f) && f.shadowed == [z])
      && Stops(t, Ingress)
      && Verdict([z, t], Ingress, endpoint, packet, m) == Allow
      && Verdict([t], Ingress, endpoint, packet, m) == Deny
  {
    var z, t := Policy("z", "s", Some(0.0), [ALLOW_ALL], []), Policy("a", "s", Some(10.0), [DENY_ALL], []);
    assert SelectorOf(t) == "s" && SelectorOf(z) == "s";
    assert Unconstrained(t.ingress[0]);
    PairReported(t, z);
    WalkOfTwo(z, t, Ingress, endpoint, packet, m);
    WalkOfTwo(t, t, Ingress, endpoint, packet, m);
  }
}
