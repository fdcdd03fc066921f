/**
 The shadowing audit of Calico global network policies, against first-match evaluation: what
 it reports unreachable may be deleted, in a direction where the catch-all Deny really is one.
 */
module Calico {
  import opened Basics
  import opened Ordering
  import opened Text

  datatype Action = Allow | Deny | Log | Pass

  /** A source or destination constraint; an empty one counts as none. */
  datatype Peer = Peer(text: string)

  datatype Rule = Rule(action: Action, source: Option<Peer>, destination: Option<Peer>, protocol: Option<string>)

  datatype Policy = Policy(name: string, selector: string, order: Option<real>, ingress: seq<Rule>, egress: seq<Rule>)

  datatype Direction = Ingress | Egress

  function Rules(p: Policy, d: Direction): seq<Rule> {
    if d == Ingress then p.ingress else p.egress
  }

  function SelectorOf(p: Policy): string {
    Strip(p.selector)
  }

  // -------------------------------------------------------------- evaluation

  datatype Packet = Packet(source: int, destination: int, protocol: string)

  /** What selectors and peers mean; any meaning will do. */
  datatype Meaning = Meaning(selects: (string, int) -> bool, matches: (Peer, int) -> bool)

  predicate PeerMatches(peer: Option<Peer>, who: int, m: Meaning) {
    peer.None? || m.matches(peer.value, who)
  }

  predicate RuleMatches(rule: Rule, packet: Packet, m: Meaning) {
    && PeerMatches(rule.source, packet.source, m)
    && PeerMatches(rule.destination, packet.destination, m)
    && (rule.protocol.None? || rule.protocol.value == packet.protocol)
  }

  /** The first rule that matches and decides; a Log rule never decides. */
  function Decision(rules: seq<Rule>, packet: Packet, m: Meaning): Option<Action> {
    if rules == [] then None
    else if RuleMatches(rules[0], packet, m) && rules[0].action != Log then Some(rules[0].action)
    else Decision(rules[1..], packet, m)
  }

  predicate Applies(p: Policy, endpoint: int, m: Meaning) {
    m.selects(SelectorOf(p), endpoint)
  }

  /** An endpoint some policy selects is denied what no rule decides; others are passed on. */
  function Walk(policies: seq<Policy>, d: Direction, endpoint: int, packet: Packet, m: Meaning,
                selected: bool): Action {
    if policies == [] then (if selected then Deny else Pass)
    else if !Applies(policies[0], endpoint, m) then Walk(policies[1..], d, endpoint, packet, m, selected)
    else
      match Decision(Rules(policies[0], d), packet, m)
      case Some(action) => action
      case None => Walk(policies[1..], d, endpoint, packet, m, true)
  }

  /** Lower orders first; a policy without an order comes last. */
  predicate OrderLe(a: Option<real>, b: Option<real>) {
    b.None? || (a.Some? && a.value <= b.value)
  }

  predicate EvaluatedBefore(a: Policy, b: Policy) {
    OrderLe(a.order, b.order)
  }

  function Verdict(policies: seq<Policy>, d: Direction, endpoint: int, packet: Packet, m: Meaning): Action {
    Walk(StableSort(policies, EvaluatedBefore), d, endpoint, packet, m, false)
  }

  // ------------------------------------------------------------------- audit

  /** The audit's sort key is `order or inf`, so an order of 0 counts as none. */
  function AuditOrder(p: Policy): Option<real> {
    if p.order == Some(0.0) then None else p.order
  }

  predicate AuditedBefore(a: Policy, b: Policy) {
    OrderLe(AuditOrder(a), AuditOrder(b))
  }

  lemma OrdersArePreorders()
    ensures TotalPreorder(EvaluatedBefore) && TotalPreorder(AuditedBefore)
  {
  }

  predicate Unconstrained(rule: Rule) {
    rule.action == Deny && rule.source.None? && rule.destination.None?
  }

  predicate HasUnconstrained(rules: seq<Rule>) {
    exists i :: 0 <= i < |rules| && Unconstrained(rules[i])
  }

  /** What the audit calls a catch-all Deny: in either direction, and whatever the protocol. */
  predicate Terminal(p: Policy) {
    HasUnconstrained(p.ingress) || HasUnconstrained(p.egress)
  }

  datatype Shadowing = Shadowing(terminal: Policy, shadowed: seq<Policy>, listed: seq<string>)

  function NamesOf(policies: seq<Policy>): seq<string> {
    seq(|policies|, i requires 0 <= i < |policies| => policies[i].name)
  }

  function OfSelector(policies: seq<Policy>, selector: string): seq<Policy> {
    Filter(policies, (p: Policy) => SelectorOf(p) == selector)
  }

  /** The policies of one selector, in the audit's order. */
  function Group(policies: seq<Policy>, selector: string): seq<Policy> {
    StableSort(OfSelector(policies, selector), AuditedBefore)
  }

  /** The position of the first terminal policy that has others after it, or the length. */
  function FirstTerminal(ordered: seq<Policy>): nat {
    if ordered == [] then 0
    else if Terminal(ordered[0]) && |ordered| > 1 then 0
    else 1 + FirstTerminal(ordered[1..])
  }

  function FindingIn(ordered: seq<Policy>, at: nat): Shadowing
    requires at < |ordered|
  {
    Shadowing(ordered[at], ordered[at + 1..], FirstFive(NamesOf(ordered[at + 1..])))
  }

  /** The finding of one selector's group. */
  ghost predicate FindingFor(policies: seq<Policy>, selector: string, f: Shadowing) {
    var ordered := Group(policies, selector);
    var at := FirstTerminal(ordered);
    at < |ordered| && f == FindingIn(ordered, at)
  }

  datatype SharedOrder = SharedOrder(order: real, count: nat, listed: seq<string>)

  function WithOrder(policies: seq<Policy>, order: real): seq<Policy> {
    Filter(policies, (p: Policy) => p.order == Some(order))
  }

  /** At most the first five names are listed. */
  function FirstFive(names: seq<string>): (listed: seq<string>)
    ensures listed <= names && |listed| == if |names| < 5 then |names| else 5
  {
    if |names| > 5 then names[..5] else names
  }

  /** The row of an order, whether or not it is reported. */
  function SharedRow(policies: seq<Policy>, order: real): SharedOrder {
    SharedOrder(order, |WithOrder(policies, order)|, FirstFive(NamesOf(WithOrder(policies, order))))
  }

  /** One row for each order that several policies set, with their number and the first five of their names. */
  ghost predicate SharedReported(policies: seq<Policy>, rows: seq<SharedOrder>) {
    && (forall k :: 0 <= k < |rows| ==> rows[k].count > 1 && rows[k] == SharedRow(policies, rows[k].order))
    && (forall o :: |WithOrder(policies, o)| > 1 ==> SharedRow(policies, o) in rows)
    && (forall j, k :: 0 <= j < k < |rows| ==> rows[j].order != rows[k].order)
  }

  lemma FirstTerminalFound(ordered: seq<Policy>, k: nat)
    requires k < |ordered|
    requires forall j :: 0 <= j < k ==> !Terminal(ordered[j])
    ensures Terminal(ordered[k]) && k < |ordered| - 1 ==> FirstTerminal(ordered) == k
    ensures !Terminal(ordered[k]) || k == |ordered| - 1 ==> FirstTerminal(ordered) > k
  {
    if k > 0 {
      FirstTerminalFound(ordered[1..], k - 1);
    }
  }

  lemma {:induction false} FirstTerminalIs(ordered: seq<Policy>)
    ensures FirstTerminal(ordered) < |ordered| ==>
      FirstTerminal(ordered) < |ordered| - 1 && Terminal(ordered[FirstTerminal(ordered)])
    ensures forall j :: 0 <= j < FirstTerminal(ordered) && j < |ordered| - 1 ==> !Terminal(ordered[j])
  {
    if ordered != [] && !(Terminal(ordered[0]) && |ordered| > 1) {
      FirstTerminalIs(ordered[1..]);
      assert forall j :: 0 < j < |ordered| ==> ordered[j] == ordered[1..][j - 1];
    }
  }

  /** Some rule of the policy, either way, is a Deny that names neither source nor destination. */
  ghost predicate DeniesAll(p: Policy) {
    || (exists r :: r in p.ingress && r.action.Deny? && r.source.None? && r.destination.None?)
    || (exists r :: r in p.egress && r.action.Deny? && r.source.None? && r.destination.None?)
  }

  lemma TerminalIff(p: Policy)
    ensures Terminal(p) <==> DeniesAll(p)
  {
  }

  /**
   Which selectors get a row, and what it says: some policy of the group other than the last has a Deny
   without source and destination; the row is about the first such policy and lists all those after it.
   */
  lemma RowIff(policies: seq<Policy>, selector: string)
    ensures (exists f :: FindingFor(policies, selector, f)) <==>
      exists i :: 0 <= i < |Group(policies, selector)| - 1 && DeniesAll(Group(policies, selector)[i])
    ensures forall f :: FindingFor(policies, selector, f) ==>
      exists i :: 0 <= i < |Group(policies, selector)| - 1
        && f.terminal == Group(policies, selector)[i] && DeniesAll(f.terminal)
        && f.shadowed == Group(policies, selector)[i + 1..]
        && |f.listed| <= 5 && f.listed <= NamesOf(f.shadowed)
        && forall j :: 0 <= j < i ==> !DeniesAll(Group(policies, selector)[j])
  {
    var ordered := Group(policies, selector);
    var at := FirstTerminal(ordered);
    FirstTerminalIs(ordered);
    forall p: Policy ensures Terminal(p) <==> DeniesAll(p) {
      TerminalIff(p);
    }
    if at < |ordered| {
      assert FindingFor(policies, selector, FindingIn(ordered, at));
      assert DeniesAll(ordered[at]);
    }
  }

  lemma {:induction false} SortOfEquals<T>(xs: seq<T>, le: (T, T) -> bool)
    requires forall x, y :: x in xs && y in xs ==> le(x, y)
    ensures StableSort(xs, le) == xs
  {
    if xs != [] {
      SortOfEquals(xs[1..], le);
    }
  }

  lemma AsListed(policies: seq<Policy>, selector: string, same: Policy -> bool, both: Policy -> bool)
    requires forall p, q :: same(p) && same(q) ==> AuditedBefore(p, q)
    requires forall p :: both(p) <==> Strip(p.selector) == selector && same(p)
    ensures Filter(Group(policies, selector), same) == Filter(policies, both)
  {
    var mine := OfSelector(policies, selector);
    OrdersArePreorders();
    FilterCommutesWithSort(mine, AuditedBefore, same);
    FilterElements(mine, same);
    SortOfEquals(Filter(mine, same), AuditedBefore);
    FilterTwice(policies, (p: Policy) => SelectorOf(p) == selector, same, both);
  }

  /**
   The audit's order: the policies of the selector, blanks around it left out, those with an order other
   than 0 first and by it, the others last.
   */
  lemma GroupInOrder(policies: seq<Policy>, selector: string)
    ensures var ordered := Group(policies, selector);
      && (forall p :: p in ordered <==> p in policies && Strip(p.selector) == selector)
      && (forall i, j :: 0 <= i < j < |ordered| ==>
            || ordered[j].order == None || ordered[j].order == Some(0.0)
            || (ordered[i].order.Some? && ordered[i].order.value != 0.0
                && ordered[i].order.value <= ordered[j].order.value))
  {
    var mine, ordered := OfSelector(policies, selector), Group(policies, selector);
    OrdersArePreorders();
    FilterElements(policies, (p: Policy) => SelectorOf(p) == selector);
    SortElements(mine, AuditedBefore);
    SortSorted(mine, AuditedBefore);
    assert forall i, j :: 0 <= i < j < |ordered| ==> AuditedBefore(ordered[i], ordered[j]);
  }

  /** Policies of one order, and those with none or 0, are audited as they are listed. */
  lemma TiesAsListed(policies: seq<Policy>, selector: string, order: real)
    ensures order != 0.0 ==>
      Filter(Group(policies, selector), (p: Policy) => p.order == Some(order)) ==
      Filter(policies, (p: Policy) => Strip(p.selector) == selector && p.order == Some(order))
    ensures Filter(Group(policies, selector), (p: Policy) => p.order == None || p.order == Some(0.0)) ==
      Filter(policies, (p: Policy) => Strip(p.selector) == selector && (p.order == None || p.order == Some(0.0)))
  {
    if order != 0.0 {
      AsListed(policies, selector, (p: Policy) => p.order == Some(order),
               (p: Policy) => Strip(p.selector) == selector && p.order == Some(order));
    }
    AsListed(policies, selector, (p: Policy) => p.order == None || p.order == Some(0.0),
             (p: Policy) => Strip(p.selector) == selector && (p.order == None || p.order == Some(0.0)));
  }

  /** The walk over one group. */
  method AuditGroup(ordered: seq<Policy>) returns (rows: seq<Shadowing>)
    ensures rows == if FirstTerminal(ordered) < |ordered| then [FindingIn(ordered, FirstTerminal(ordered))] else []
  {
    rows := [];
    for index := 0 to |ordered|
      invariant forall j :: 0 <= j < index ==> !Terminal(ordered[j]) || j == |ordered| - 1
      invariant index > 0 ==> FirstTerminal(ordered) >= index
    {
      FirstTerminalFound(ordered, index);
      if Terminal(ordered[index]) && index < |ordered| - 1 {
        rows := [FindingIn(ordered, index)];
        return;
      }
    }
  }

  /** The policies by selector, selectors in order of first appearance. */
  method BySelector(policies: seq<Policy>) returns (groups: map<string, seq<Policy>>, selectors: seq<string>)
    ensures forall j :: 0 <= j < |selectors| ==> selectors[j] in groups
    ensures forall s :: s in groups ==> s in selectors && groups[s] == OfSelector(policies, s)
    ensures forall s :: s !in groups ==> OfSelector(policies, s) == []
  {
    groups, selectors := map[], [];
    for i := 0 to |policies|
      invariant forall j :: 0 <= j < |selectors| ==> selectors[j] in groups
      invariant forall s :: s in groups ==> s in selectors && groups[s] == OfSelector(policies[..i], s)
      invariant forall s :: s !in groups ==> OfSelector(policies[..i], s) == []
    {
      var s := SelectorOf(policies[i]);
      if s !in groups {
        selectors := selectors + [s];
        groups := groups[s := []];
      }
      groups := groups[s := groups[s] + [policies[i]]];
      forall t
        ensures OfSelector(policies[..i + 1], t) == OfSelector(policies[..i], t) + if t == s then [policies[i]] else []
      {
        OneMore(policies, i, t);
      }
    }
    assert policies[..|policies|] == policies;
  }

  /** The findings of the first `k` selectors, and no others. */
  ghost predicate FoundUpTo(policies: seq<Policy>, selectors: seq<string>, k: nat, rows: seq<Shadowing>)
    requires k <= |selectors|
  {
    forall f :: f in rows <==> exists s :: s in selectors[..k] && FindingFor(policies, s, f)
  }

  lemma FoundOneMore(policies: seq<Policy>, selectors: seq<string>, k: nat, rows: seq<Shadowing>, found: seq<Shadowing>)
    requires k < |selectors| && FoundUpTo(policies, selectors, k, rows)
    requires forall f :: f in found <==> FindingFor(policies, selectors[k], f)
    ensures FoundUpTo(policies, selectors, k + 1, rows + found)
  {
    assert selectors[..k + 1] == selectors[..k] + [selectors[k]];
    forall f ensures f in rows + found <==> exists s :: s in selectors[..k + 1] && FindingFor(policies, s, f) {
      assert f in rows + found <==> f in rows || f in found;
    }
  }

  /** Group by selector, audit each group, then report orders that several policies share. */
  method CheckShadowing(policies: seq<Policy>) returns (rows: seq<Shadowing>, shared: seq<SharedOrder>)
    ensures forall f :: f in rows <==> exists s :: FindingFor(policies, s, f)
    ensures SharedReported(policies, shared)
  {
    var groups, selectors := BySelector(policies);
    rows := [];
    for k := 0 to |selectors|
      invariant FoundUpTo(policies, selectors, k, rows)
    {
      var found := AuditGroup(StableSort(groups[selectors[k]], AuditedBefore));
      FoundOneMore(policies, selectors, k, rows, found);
      rows := rows + found;
    }
    assert selectors[..|selectors|] == selectors;
    forall s, f | FindingFor(policies, s, f) ensures s in selectors {
      assert OfSelector(policies, s) != [];
    }
    shared := SharedOrders(policies);
  }

  lemma OneMore(policies: seq<Policy>, i: nat, selector: string)
    requires i < |policies|
    ensures OfSelector(policies[..i + 1], selector) ==
      OfSelector(policies[..i], selector) + (if SelectorOf(policies[i]) == selector then [policies[i]] else [])
  {
    assert policies[..i + 1] == policies[..i] + [policies[i]] && [policies[i]][1..] == [];
    FilterAppend(policies[..i], [policies[i]], (p: Policy) => SelectorOf(p) == selector);
  }

  lemma OneMoreOrder(policies: seq<Policy>, i: nat, order: real)
    requires i < |policies|
    ensures WithOrder(policies[..i + 1], order) ==
      WithOrder(policies[..i], order) + (if policies[i].order == Some(order) then [policies[i]] else [])
  {
    assert policies[..i + 1] == policies[..i] + [policies[i]] && [policies[i]][1..] == [];
    FilterAppend(policies[..i], [policies[i]], (p: Policy) => p.order == Some(order));
  }

  /** Names by order, for the policies that set one, and the orders as they first appear. */
  method ByOrder(policies: seq<Policy>) returns (orders: map<real, seq<string>>, seen: seq<real>)
    ensures forall o :: o in orders <==> o in seen
    ensures forall j, k :: 0 <= j < k < |seen| ==> seen[j] != seen[k]
    ensures forall o :: o in orders ==> orders[o] == NamesOf(WithOrder(policies, o))
    ensures forall o :: o !in orders ==> WithOrder(policies, o) == []
  {
    orders, seen := map[], [];
    for i := 0 to |policies|
      invariant forall o :: o in orders <==> o in seen
      invariant forall j, k :: 0 <= j < k < |seen| ==> seen[j] != seen[k]
      invariant forall o :: o in orders ==> orders[o] == NamesOf(WithOrder(policies[..i], o))
      invariant forall o :: o !in orders ==> WithOrder(policies[..i], o) == []
    {
      forall o: real ensures WithOrder(policies[..i + 1], o) ==
        WithOrder(policies[..i], o) + (if policies[i].order == Some(o) then [policies[i]] else [])
      {
        OneMoreOrder(policies, i, o);
      }
      if policies[i].order.Some? {
        var o := policies[i].order.value;
        if o !in orders {
          seen := seen + [o];
          orders := orders[o := []];
        }
        orders := orders[o := orders[o] + [policies[i].name]];
      }
    }
    assert policies[..|policies|] == policies;
  }

  /** What holds of the rows once the first `k` orders seen have been looked at. */
  ghost predicate SharedUpTo(policies: seq<Policy>, seen: seq<real>, k: nat, rows: seq<SharedOrder>)
    requires k <= |seen|
  {
    && (forall j :: 0 <= j < |rows| ==> rows[j].count > 1 && rows[j] == SharedRow(policies, rows[j].order))
    && (forall j :: 0 <= j < |rows| ==> rows[j].order in seen[..k])
    && (forall i, j :: 0 <= i < j < |rows| ==> rows[i].order != rows[j].order)
    && (forall o :: o in seen[..k] && |WithOrder(policies, o)| > 1 ==> SharedRow(policies, o) in rows)
  }

  lemma SharedOneMore(policies: seq<Policy>, seen: seq<real>, k: nat, rows: seq<SharedOrder>)
    requires k < |seen| && seen[k] !in seen[..k] && SharedUpTo(policies, seen, k, rows)
    ensures var row := SharedRow(policies, seen[k]);
      SharedUpTo(policies, seen, k + 1, if row.count > 1 then rows + [row] else rows)
  {
    var row := SharedRow(policies, seen[k]);
    var more := if row.count > 1 then rows + [row] else rows;
    assert seen[..k + 1] == seen[..k] + [seen[k]];
    forall j | 0 <= j < |more|
      ensures more[j].count > 1 && more[j] == SharedRow(policies, more[j].order) && more[j].order in seen[..k + 1]
    {
      assert j < |rows| ==> more[j] == rows[j];
    }
    forall o | o in seen[..k + 1] && |WithOrder(policies, o)| > 1 ensures SharedRow(policies, o) in more {
      assert o == seen[k] ==> more[|rows|] == row;
    }
  }

  method SharedOrders(policies: seq<Policy>) returns (rows: seq<SharedOrder>)
    ensures SharedReported(policies, rows)
  {
    var orders, seen := ByOrder(policies);
    rows := [];
    for k := 0 to |seen|
      invariant SharedUpTo(policies, seen, k, rows)
    {
      SharedOneMore(policies, seen, k, rows);
      var names := orders[seen[k]];
      if |names| > 1 {
        rows := rows + [SharedOrder(seen[k], |names|, FirstFive(names))];
      }
    }
    assert seen[..|seen|] == seen;
  }
}
