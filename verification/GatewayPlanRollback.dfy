/** What the exact rollback condition means for planned configurations. */
module GatewayPlanRollback {
  import opened Text
  import opened Sorting
  import opened Network
  import opened Policy
  import opened Gateway
  import opened GatewayRollback
  import opened GatewayPlan
  import opened GatewayAgreement

  /** Two observations of different addresses, of one family, decided for one table. */
  ghost predicate ShareEgress(net: Net, rules: Rules, byNode: map<string, EgressTarget>, a: Request, b: Request) {
    && AddrOf(net, a).Some? && AddrOf(net, b).Some? && AddrOf(net, a) != AddrOf(net, b)
    && AddrOf(net, a).value.family == AddrOf(net, b).value.family
    && ChosenTable(net, rules, byNode, a).Some?
       && ChosenTable(net, rules, byNode, a) == ChosenTable(net, rules, byNode, b)
  }

  /** The planned entry of a matched observation's address goes to the table decided for it. */
  lemma PlannedEntryOf(net: Net, rules: Rules, byNode: map<string, EgressTarget>, observations: seq<Request>,
                       a: Request)
    returns (i: nat)
    requires Consistent(net, rules, byNode, observations) && AllRepresented(net, rules, byNode, observations)
    requires a in observations && AddrOf(net, a).Some? && ChosenTable(net, rules, byNode, a).Some?
    ensures var kept := Kept(net, Entries(net, rules, byNode, StableSort(observations, ByKey(net))));
            && i < |kept| && kept[i].addr == AddrOf(net, a).value
            && Some(kept[i].target.table) == ChosenTable(net, rules, byNode, a)
  {
    hide Kept, Entries, ByKey, DecisionFor, Represented, AddrOf;
    var qs, x := StableSort(observations, ByKey(net)), AddrOf(net, a).value;
    SameMembers(qs, observations);
    var es := Entries(net, rules, byNode, qs);
    KeptRepresents(net, es, x);
    var e :| e in Kept(net, es) && e.addr == x;
    i :| 0 <= i < |Kept(net, es)| && Kept(net, es)[i] == e;
    var q := EntryNode(net, rules, byNode, qs, e);
    assert ChosenTable(net, rules, byNode, q) == Some(e.target.table);
  }

  /** Entries of one family and table are planned on one route. */
  lemma SameRoute(net: Net, o: PlanOptions, raw: string, es: seq<Entry>, i: nat, j: nat)
    requires i < |es| && j < |es| && es[i].addr.family == es[j].addr.family && es[i].target.table == es[j].target.table
    ensures RouteKeyOf(net, Numbered(net, o, raw, es)[i]) == RouteKeyOf(net, Numbered(net, o, raw, es)[j])
  {
    hide NamePart;
  }

  lemma PlannedRulesAreDistinct(net: Net, o: PlanOptions, raw: string, es: seq<Entry>)
    requires NoOverflow(o, |es|)
    ensures DistinctBy(Numbered(net, o, raw, es), RuleKeys())
  {
    hide Numbered;
    var s := Numbered(net, o, raw, es);
    forall i, j | 0 <= i < j < |s| ensures RuleKeys()(s[i]) != RuleKeys()(s[j]) {
      NumberedAt(net, o, raw, es, i);
      NumberedAt(net, o, raw, es, j);
    }
  }

  /** A plan that sends two addresses to one egress node writes one route twice. */
  lemma SharedEgressSharesRoute(
    net: Net, rules: Rules, options: PlanOptions, observations: seq<Request>, byNode: map<string, EgressTarget>,
    a: Request, b: Request)
    requires NormalizePlanOptions(net, options).Ok?
    requires NoOverflow(NormalizePlanOptions(net, options).value, |observations|)
    requires Consistent(net, rules, byNode, observations) && AllRepresented(net, rules, byNode, observations)
    requires a in observations && b in observations && ShareEgress(net, rules, byNode, a, b)
    ensures var planned := PlanFor(net, rules, options, observations, byNode);
            DistinctBy(planned, RuleKeys()) && !DistinctBy(planned, RouteKeys(net))
  {
    hide Kept, Entries, ByKey, ChosenTable, NormalizePlanOptions, Numbered, Consistent, AllRepresented, AddrOf;
    hide RuleKeys, RouteKeyOf;
    var o, raw := NormalizePlanOptions(net, options).value, net.trim(options.destCIDR);
    var qs := StableSort(observations, ByKey(net));
    var kept := Kept(net, Entries(net, rules, byNode, qs));
    EntriesAreFew(net, rules, byNode, qs);
    KeptSubset(net, Entries(net, rules, byNode, qs));
    PlannedRulesAreDistinct(net, o, raw, kept);
    var i := PlannedEntryOf(net, rules, byNode, observations, a);
    var j := PlannedEntryOf(net, rules, byNode, observations, b);
    SameRoute(net, o, raw, kept, i, j);
    var planned := Numbered(net, o, raw, kept);
    assert RouteKeys(net)(planned[i]) == RouteKeys(net)(planned[j]);
  }

  /** Two observed addresses with one egress node: after every route command succeeded and only the reload
      failed, no rollback of the plan restores the host. */
  lemma SharedEgressCannotBeRolledBack(
    net: Net, rules: Rules, options: PlanOptions, observations: seq<Request>, byNode: map<string, EgressTarget>,
    a: Request, b: Request, s: seq<RouteRule>, t: seq<RouteRule>, h0: Host, faults: nat -> bool, at: nat)
    requires NormalizePlanOptions(net, options).Ok?
    requires NoOverflow(NormalizePlanOptions(net, options).value, |observations|)
    requires Consistent(net, rules, byNode, observations) && AllRepresented(net, rules, byNode, observations)
    requires a in observations && b in observations && ShareEgress(net, rules, byNode, a, b)
    requires OrderOf(s, PlanFor(net, rules, options, observations, byNode), RuleBefore)
    requires OrderOf(t, PlanFor(net, rules, options, observations, byNode), RuleAfter)
    requires Fresh(net, h0, PlanFor(net, rules, options, observations, byNode))
    requires Exec(h0, ApplyCommands(net, s), faults, at).done == |ApplyCommands(net, s)| - 1
    requires forall n :: at + |ApplyCommands(net, s)| <= n < at + |ApplyCommands(net, s)| + 1 + 2 * |t| ==> !faults(n)
    ensures var applied := Exec(h0, ApplyCommands(net, s), faults, at).host;
            Exec(applied, RollbackCommands(net, t), faults, at + |ApplyCommands(net, s)|).host != h0
  {
    hide Kept, Entries, ByKey, ChosenTable, NormalizePlanOptions, Numbered, Consistent, AllRepresented, AddrOf, PlanFor;
    hide RuleKeys, RouteKeys, Exec, Fresh, DistinctBy, ShareEgress, RuleBefore, Up, Down, Marking;
    var planned := PlanFor(net, rules, options, observations, byNode);
    SharedEgressSharesRoute(net, rules, options, observations, byNode, a, b);
    RollbackRestoresExactly(net, planned, s, t, h0, faults, at);
    assert s[..|s|] == s;
    if DistinctBy(s, RouteKeys(net)) { PermutationKeepsDistinct(s, planned, RouteKeys(net)); }
  }
}
