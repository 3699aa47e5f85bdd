/** Where the planned gateway and the policy engine part: an observation shadowed by the duplicate key. */
module GatewayShadowing {
  import opened Text
  import opened Sorting
  import opened Network
  import opened Policy
  import opened GatewayPlan
  import opened GatewayAgreement

  /** Library text as Go prints and trims it: the printed address parses back, and text without blank
      edges is trimmed to itself. */
  ghost predicate Plain(net: Net, a: Addr) {
    && Printable(net, a) && net.parseIP(net.showIP(a)) == Some(a) && net.showIP(a) != "" && IsTrimmed(net.showIP(a))
    && forall s {:trigger IsTrimmed(s)} :: IsTrimmed(s) ==> net.trim(s) == s
  }

  // A policy and two egress nodes whose ids make two keys equal, whatever the two addresses are.

  function BarNode(net: Net, b: Addr): string { "n|" + HostText(net, b) + "|m" }

  function BarID(net: Net, a: Addr): string { "x|" + HostText(net, a) + "|n" }

  function RuleAt(net: Net, a: Addr, id: string, node: string): Rule {
    Rule(id, "t", 0, "", HostText(net, a), 0, "", node)
  }

  function BarRules(net: Net, a: Addr, b: Addr): Rules {
    Rules(None, [RuleAt(net, a, "x", BarNode(net, b)), RuleAt(net, b, BarID(net, a), "m")])
  }

  function BarTargets(net: Net, b: Addr): seq<EgressTarget> {
    [EgressTarget(BarNode(net, b), "", "eth0", 1), EgressTarget("m", "", "eth1", 2)]
  }

  function BarIndex(net: Net, b: Addr): map<string, EgressTarget> {
    map[BarNode(net, b) := BarTargets(net, b)[0], "m" := BarTargets(net, b)[1]]
  }

  function Seen(net: Net, a: Addr): Request { Request("t", "", net.showIP(a), 0, "") }

  lemma Untouched(net: Net, a: Addr, s: string)
    requires Plain(net, a) && IsTrimmed(s)
    ensures net.trim(s) == s
  {
  }

  lemma NamesAreTrimmed(net: Net, a: Addr, b: Addr)
    requires Plain(net, a) && Plain(net, b)
    ensures net.trim(BarNode(net, b)) == BarNode(net, b) && net.trim("m") == "m" && net.trim("t") == "t"
            && net.trim("x") == "x"
    ensures net.trim(BarID(net, a)) == BarID(net, a) && net.trim("eth0") == "eth0" && net.trim("eth1") == "eth1"
    ensures net.trim(net.showIP(a)) == net.showIP(a) && net.trim(net.showIP(b)) == net.showIP(b)
  {
    hide HostText;
    Untouched(net, a, BarNode(net, b));
    Untouched(net, a, BarID(net, a));
    Untouched(net, a, "m");
    Untouched(net, a, "t");
    Untouched(net, a, "x");
    Untouched(net, a, "eth0");
    Untouched(net, a, "eth1");
    Untouched(net, a, net.showIP(a));
    Untouched(net, b, net.showIP(b));
  }

  lemma AppliesAt(net: Net, a: Addr, c: Addr, id: string, node: string)
    requires Plain(net, a) && Plain(net, c)
    ensures Applies(net, Seen(net, c))(RuleAt(net, a, id, node)) <==> a == c
  {
    hide Pow2, Contains;
    HostContainsOnlyItself(a, c);
  }

  lemma SeenAsIs(net: Net, rules: Rules, a: Addr)
    requires Plain(net, a) && rules.classifier.None?
    ensures AddrOf(net, Seen(net, a)) == Some(a) && Observed(net, rules, Seen(net, a)) == Seen(net, a)
  {
    Untouched(net, a, net.showIP(a));
  }

  /** The policy decides each observation by its own rule. */
  lemma Decided(net: Net, a: Addr, b: Addr)
    requires Plain(net, a) && Plain(net, b) && a != b
    ensures AddrOf(net, Seen(net, a)) == Some(a) && AddrOf(net, Seen(net, b)) == Some(b)
    ensures DecisionFor(net, BarRules(net, a, b), Seen(net, a)) == Decision(true, "x", BarNode(net, b), "")
    ensures DecisionFor(net, BarRules(net, a, b), Seen(net, b)) == Decision(true, BarID(net, a), "m", "")
  {
    hide Plain, HostText, BarNode, BarID, AddrOf, DecisionFor;
    DecidedBy(net, a, b, a);
    DecidedBy(net, a, b, b);
  }

  lemma DecidedBy(net: Net, a: Addr, b: Addr, c: Addr)
    requires Plain(net, a) && Plain(net, b) && a != b && (c == a || c == b)
    ensures AddrOf(net, Seen(net, c)) == Some(c)
    ensures DecisionFor(net, BarRules(net, a, b), Seen(net, c)) ==
            if c == a then Decision(true, "x", BarNode(net, b), "") else Decision(true, BarID(net, a), "m", "")
  {
    hide Plain, Applies, HostText, BarNode, BarID, AddrOf, Observed, BestSat;
    SeenAsIs(net, BarRules(net, a, b), c);
    var first, second := RuleAt(net, a, "x", BarNode(net, b)), RuleAt(net, b, BarID(net, a), "m");
    AppliesAt(net, a, c, first.id, first.egressNodeID);
    AppliesAt(net, b, c, second.id, second.egressNodeID);
    BestOfTwo(first, second, Applies(net, Seen(net, c)));
  }

  lemma BestOfTwo(r: Rule, s: Rule, p: Rule -> bool)
    requires p(r) != p(s)
    ensures BestSat([r, s], Before, p) == Some(if p(r) then r else s)
  {
    hide Before;
    assert [r, s][1..] == [s] && [s][1..] == [];
    assert BestSat([s], Before, p) == if p(s) then Some(s) else None;
  }

  function BarEntries(net: Net, a: Addr, b: Addr): (Entry, Entry) {
    (Entry(a, Decision(true, "x", BarNode(net, b), ""), BarTargets(net, b)[0]),
     Entry(b, Decision(true, BarID(net, a), "m", ""), BarTargets(net, b)[1]))
  }

  lemma SameKey(net: Net, a: Addr, b: Addr)
    ensures KeyText(net, BarEntries(net, a, b).0) == KeyText(net, BarEntries(net, a, b).1)
  {
    hide HostText;
    var ha, hb := HostText(net, a), HostText(net, b);
    assert KeyText(net, BarEntries(net, a, b).0) == "x|" + ha + "|n|" + hb + "|m" ==
             KeyText(net, BarEntries(net, a, b).1);
  }

  lemma BarEntriesPlanned(net: Net, a: Addr, b: Addr)
    requires Plain(net, a) && Plain(net, b) && a != b
    ensures EntryFor(net, BarRules(net, a, b), BarIndex(net, b), Seen(net, a)) == Ok(Some(BarEntries(net, a, b).0))
    ensures EntryFor(net, BarRules(net, a, b), BarIndex(net, b), Seen(net, b)) == Ok(Some(BarEntries(net, a, b).1))
  {
    hide Plain, DecisionFor, AddrOf, HostText, BarID, BarRules, Seen;
    Decided(net, a, b);
    NamesAreTrimmed(net, a, b);
    assert |BarNode(net, b)| > |"m"|;
    hide BarNode;
  }

  lemma BarsArePlannable(net: Net, a: Addr, b: Addr, options: PlanOptions)
    requires Plain(net, a) && Plain(net, b) && a != b && NormalizePlanOptions(net, options).Ok?
    ensures Plannable(net, BarRules(net, a, b), BarTargets(net, b), options, [Seen(net, a), Seen(net, b)],
                      BarIndex(net, b))
  {
    hide Plain, NormalizePlanOptions, EntryFor, HostText, EgressUpTo, EgressIndexUpTo, ValidRule, BarIndex, BarTargets;
    BarEntriesPlanned(net, a, b);
    BarsAreIndexed(net, a, b);
    BarRulesAreValid(net, a, b);
    var rules, observations := BarRules(net, a, b), [Seen(net, a), Seen(net, b)];
    assert forall i :: 0 <= i < |rules.policy| ==> ValidRule(net, rules.policy[i]);
    assert forall i :: 0 <= i < |observations| ==> EntryFor(net, rules, BarIndex(net, b), observations[i]).Ok?;
  }

  lemma BarsAreIndexed(net: Net, a: Addr, b: Addr)
    requires Plain(net, a) && Plain(net, b)
    ensures EgressUpTo(net, BarTargets(net, b), |BarTargets(net, b)|)
    ensures EgressIndexUpTo(net, BarIndex(net, b), BarTargets(net, b), |BarTargets(net, b)|)
  {
    hide Plain, HostText, BarNode;
    NamesAreTrimmed(net, a, b);
    assert BarNode(net, b) != "m" && BarNode(net, b) != "" by { BarNodeIsLong(net, b); }
    TwoTargetsIndex(net, BarNode(net, b), "m");
  }

  lemma BarNodeIsLong(net: Net, b: Addr)
    ensures |BarNode(net, b)| >= 4
  {
  }

  lemma TwoTargetsIndex(net: Net, m: string, n: string)
    requires net.trim(m) == m && net.trim(n) == n && m != n && m != "" && n != ""
    requires net.trim("eth0") == "eth0" && net.trim("eth1") == "eth1"
    ensures var targets := [EgressTarget(m, "", "eth0", 1), EgressTarget(n, "", "eth1", 2)];
            EgressUpTo(net, targets, 2) && EgressIndexUpTo(net, map[m := targets[0], n := targets[1]], targets, 2)
  {
    var targets := [EgressTarget(m, "", "eth0", 1), EgressTarget(n, "", "eth1", 2)];
    var byNode := map[m := targets[0], n := targets[1]];
    assert TrimEgress(net, targets[0]) == targets[0] && TrimEgress(net, targets[1]) == targets[1];
    assert byNode[m] == targets[0] && byNode[n] == targets[1];
  }

  lemma BarRulesAreValid(net: Net, a: Addr, b: Addr)
    requires Plain(net, a) && Plain(net, b)
    ensures ValidRule(net, RuleAt(net, a, "x", BarNode(net, b))) && ValidRule(net, RuleAt(net, b, BarID(net, a), "m"))
  {
    hide Plain, HostText, ValidRule, BarNode, BarID;
    NamesAreTrimmed(net, a, b);
    BarNodeIsLong(net, b);
    assert |BarID(net, a)| > 0 by { BarIDIsText(net, a); }
    ValidAt(net, a, "x", BarNode(net, b));
    ValidAt(net, b, BarID(net, a), "m");
  }

  lemma BarIDIsText(net: Net, a: Addr)
    ensures |BarID(net, a)| > 0
  {
  }

  lemma ValidAt(net: Net, a: Addr, id: string, node: string)
    requires Plain(net, a) && net.trim(id) == id != "" && net.trim(node) == node != "" && net.trim("t") == "t"
    ensures ValidRule(net, RuleAt(net, a, id, node))
  {
    assert Printable(net, a);
    hide Plain, HostText, Pow2;
    HostTextIsText(net, a);
  }

  lemma HostTextIsText(net: Net, a: Addr)
    ensures |HostText(net, a)| > 0
  {
  }

  /** The two entries in either order: the second address is not represented. */
  lemma SecondIsShadowed(net: Net, x: Entry, y: Entry)
    requires KeyText(net, x) == KeyText(net, y) && x.addr != y.addr
    ensures !Represented(net, [x, y], y.addr)
  {
    hide KeyText;
    var es := [x, y];
    assert es[0] == x && es[1] == y;
  }

  lemma EntriesOfTwo(net: Net, rules: Rules, byNode: map<string, EgressTarget>, q: Request, r: Request, x: Entry,
                     y: Entry)
    requires EntryFor(net, rules, byNode, q) == Ok(Some(x)) && EntryFor(net, rules, byNode, r) == Ok(Some(y))
    ensures Entries(net, rules, byNode, [q, r]) == [x, y]
  {
    hide EntryFor;
    assert [q, r][..1] == [q] && [q][..0] == [];
    assert Entries(net, rules, byNode, [q]) == [x];
  }

  lemma SortOfTwo<T>(q: T, r: T, less: (T, T) -> bool)
    ensures StableSort([q, r], less) == if less(r, q) then [r, q] else [q, r]
  {
    assert [q, r][1..] == [r] && [r][1..] == [];
    assert StableSort([r], less) == [r];
    assert Insert(q, [], less) == [q];
  }

  /** Bars in node and rule ids: for any two addresses there are observations, rules and targets that
      plan without error and are consistent, and yet the plan disagrees with the policy engine. */
  lemma BarsShadowAnAddress(net: Net, a: Addr, b: Addr, options: PlanOptions)
    requires HostLaws(net) && Plain(net, a) && Plain(net, b) && a != b
    requires NormalizePlanOptions(net, options).Ok? && NoOverflow(NormalizePlanOptions(net, options).value, 2)
    ensures var observations, rules, byNode := [Seen(net, a), Seen(net, b)], BarRules(net, a, b), BarIndex(net, b);
            && Plannable(net, rules, BarTargets(net, b), options, observations, byNode)
            && Consistent(net, rules, byNode, observations)
            && !Agrees(net, rules, byNode, PlanFor(net, rules, options, observations, byNode), observations)
  {
    var observations, rules, byNode := [Seen(net, a), Seen(net, b)], BarRules(net, a, b), BarIndex(net, b);
    hide HostLaws, Plain, NormalizePlanOptions, EntryFor, Entries, KeyText, Plannable, PlanFor, Agrees, ByKey;
    hide BarRules, BarIndex;
    hide Seen, AddrOf, Represented, BarEntries, BarTargets, DecisionFor;
    BarsArePlannable(net, a, b, options);
    BarEntriesPlanned(net, a, b);
    Decided(net, a, b);
    SameKey(net, a, b);
    BarAddresses(net, a, b);
    var x, y := BarEntries(net, a, b).0, BarEntries(net, a, b).1;
    SortOfTwo(Seen(net, a), Seen(net, b), ByKey(net));
    EntriesOfTwo(net, rules, byNode, Seen(net, a), Seen(net, b), x, y);
    EntriesOfTwo(net, rules, byNode, Seen(net, b), Seen(net, a), y, x);
    SecondIsShadowed(net, x, y);
    SecondIsShadowed(net, y, x);
    assert Seen(net, a) in observations && Seen(net, b) in observations;
    assert ChosenTable(net, rules, byNode, Seen(net, a)).Some? && ChosenTable(net, rules, byNode, Seen(net, b)).Some?;
    ObservedAgreement(net, rules, BarTargets(net, b), options, observations, byNode);
  }

  lemma BarAddresses(net: Net, a: Addr, b: Addr)
    ensures BarEntries(net, a, b).0.addr == a && BarEntries(net, a, b).1.addr == b
  {
  }
}
