/** The configured gateway seen from outside: what the host holds after an application, and where packets go. */
module GatewayEndToEnd {
  import opened Text
  import opened Sorting
  import opened Network
  import opened ServiceChainMeaning
  import opened Policy
  import opened Gateway
  import opened GatewayRollback
  import opened GatewayPlan
  import opened GatewayAgreement

  // ---- what is rendered ----

  /** The loaded table keeps exactly the rules that match something. */
  lemma {:induction false} MarkingKeeps(s: seq<RouteRule>, r: RouteRule)
    ensures r in Marking(s) <==> r in s && r.matchCIDR != ""
  {
    if s != [] { MarkingKeeps(s[1..], r); }
  }

  /** And marks packets as the whole rule list does. */
  lemma {:induction false} MarkingKeepsChain(net: Net, lan: string, s: seq<RouteRule>)
    ensures PolicyChain(net, lan, Marking(s)) == PolicyChain(net, lan, s)
  {
    hide PolicyMarkRule;
    if s != [] {
      MarkingKeepsChain(net, lan, s[1..]);
      if s[0].matchCIDR != "" {
        assert Marking(s)[0] == s[0] && Marking(s)[1..] == Marking(s[1..]);
      }
    }
  }

  /** Rules run by preference, and by name where preferences are equal; rollback runs the other way. */
  lemma SortOrderIs(s: seq<RouteRule>, rules: seq<RouteRule>, i: nat, j: nat)
    requires i < j < |s|
    ensures OrderOf(s, rules, RuleBefore) ==>
              s[i].preference < s[j].preference
              || (s[i].preference == s[j].preference && !StrLess(s[j].name, s[i].name))
    ensures OrderOf(s, rules, RuleAfter) ==>
              s[j].preference < s[i].preference
              || (s[i].preference == s[j].preference && !StrLess(s[i].name, s[j].name))
  {
    hide StrLess;
  }

  /** The commands of the rule at `i`, spelled out. */
  lemma RouteCommandsAre(net: Net, s: seq<RouteRule>, i: nat, dest: Cidr)
    requires i < |s| && net.parseCIDR(s[i].destCIDR) == Some(dest)
    ensures Up(net, s, |s|)[2 * i] == RuleAdd(RuleKey(V4, s[i].mark, s[i].table, s[i].preference))
    ensures Up(net, s, |s|)[2 * i + 1] == RouteReplace(RouteKey(V4, dest, s[i].table), Hop(s[i].gateway, s[i].iface))
    ensures Down(net, s, |s|)[2 * i] == RouteDel(RouteKey(V4, dest, s[i].table), Hop(s[i].gateway, s[i].iface))
    ensures Down(net, s, |s|)[2 * i + 1] == RuleDel(RuleKey(V4, s[i].mark, s[i].table, s[i].preference))
  {
    UpAt(net, s, |s|, i);
    DownAt(net, s, |s|, i);
  }

  // ---- what an application leaves on the host ----

  /** Without outages, on a host without the table whose kernel takes every route command, the whole
      application succeeds and leaves the marking table and the routed kernel. */
  lemma AppliedHost(net: Net, h0: Host, s: seq<RouteRule>, faults: nat -> bool, at: nat)
    requires h0.nft.None? && IpRun(h0.kernel, Up(net, s, |s|)).Some?
    requires forall n :: at <= n < at + |ApplyCommands(net, s)| ==> !faults(n)
    ensures var a := Exec(h0, ApplyCommands(net, s), faults, at);
            a.done == |ApplyCommands(net, s)|
            && a.host == Host(IpRun(h0.kernel, Up(net, s, |s|)).value, Some(Marking(s)))
  {
    hide Exec, Up, IpRun, Marking;
    var load, ups := NftLoad(Marking(s)), Up(net, s, |s|);
    ApplyInThreeParts(h0, [load], Lift(ups), [ReloadDnsmasq], faults, at);
    ExecOne(h0, load, faults, at);
    var loaded := h0.(nft := Some(Marking(s)));
    assert HostStep(h0, load) == Some(loaded) by { assert [] + Marking(s) == Marking(s); }
    ExecLifted(loaded, ups, faults, at + 1);
    var q := Exec(loaded, Lift(ups), faults, at + 1);
    assert ups[..|ups|] == ups;
    if q.done < |ups| { PrefixRuns(h0.kernel, ups, q.done + 1, |ups|); }
    ExecOne(q.host, ReloadDnsmasq, faults, at + 1 + |ups|);
  }

  /** What the host does to a packet entering on the LAN: the chain of its table, then its kernel. */
  function MarkedBy(net: Net, h: Host, lan: string, p: Packet, marks: Marks): Marks {
    RunChain(net, PolicyChain(net, lan, if h.nft.Some? then h.nft.value else []), p, marks)
  }

  /** End to end on the host: after the planned configuration was applied without outages, a LAN packet to an
      observed address leaves through the egress node the policy decided for that observation, and nowhere
      else; a packet to an address no matched observation mentions keeps its marks. */
  lemma AppliedPlanForwardsAsDecided(
    net: Net, rules: Rules, targets: seq<EgressTarget>, options: PlanOptions, observations: seq<Request>,
    byNode: map<string, EgressTarget>, h0: Host, s: seq<RouteRule>, faults: nat -> bool, at: nat,
    lan: string, p: Packet, marks: Marks)
    requires HostLaws(net) && Plannable(net, rules, targets, options, observations, byNode)
    requires Consistent(net, rules, byNode, observations) && AllRepresented(net, rules, byNode, observations)
    requires DeployableOn(net, NormalizePlanOptions(net, options).value, observations, byNode, h0.kernel)
             && h0.nft.None?
    requires OrderOf(s, PlanFor(net, rules, options, observations, byNode), RuleBefore) && OnInterface(lan, p)
    requires forall n :: at <= n < at + |ApplyCommands(net, s)| ==> !faults(n)
    ensures Exec(h0, ApplyCommands(net, s), faults, at).done == |ApplyCommands(net, s)|
    ensures var host := Exec(h0, ApplyCommands(net, s), faults, at).host;
            var out := MarkedBy(net, host, lan, p, marks);
            && (forall q ::
                 q in observations && AddrOf(net, q) == Some(Destination(p)) && DecisionFor(net, rules, q).matched ==>
                  LeavesVia(host.kernel, out.meta, p, byNode, net.trim(DecisionFor(net, rules, q).egressNodeID)))
            && ((forall q :: q in observations && AddrOf(net, q) == Some(Destination(p)) ==>
                 !DecisionFor(net, rules, q).matched)
                ==> out == marks)
  {
    hide HostLaws, Plannable, Consistent, AllRepresented, DeployableOn, NormalizePlanOptions, OrderOf, Up, IpRun;
    hide PolicyChain;
    hide RunChain, DecisionFor, LeavesVia, Exec, Marking, PlanFor, AddrOf;
    ObservedTrafficLeavesAsDecided(net, rules, targets, options, observations, byNode, h0.kernel, s, lan, p, marks);
    AppliedHost(net, h0, s, faults, at);
    MarkingKeepsChain(net, lan, s);
  }

  // ---- whole policies ----

  /** The route rule planned for the policy rule ranked at `i`, field by field. */
  lemma PolicyRouteRuleIs(net: Net, o: PlanOptions, byNode: map<string, EgressTarget>, rules: seq<Rule>,
                          planned: seq<RouteRule>, i: nat)
    requires PlansPolicy(net, o, byNode, rules, planned) && NoOverflow(o, |planned|) && i < |planned|
    ensures var ranked := StableSort(rules, Before);
            && |planned| == |ranked| && net.trim(ranked[i].egressNodeID) in byNode
            && var target := byNode[net.trim(ranked[i].egressNodeID)];
               planned[i] ==
                 RouteRule("policy-" + ranked[i].id, o.markBase + i, net.trim(ranked[i].ipCIDR), target.table,
                                       o.destCIDR, target.gateway, target.iface, o.preferenceBase + i)
  {
    hide Before;
  }

  /** A kernel a planned policy can be deployed on: a default-route destination, targets told apart by their
      tables, and neither marks nor tables in use. */
  ghost predicate PolicyDeployable(net: Net, o: PlanOptions, byNode: map<string, EgressTarget>, n: nat, k0: Kernel) {
    && NoOverflow(o, n) && net.parseCIDR(o.destCIDR) == Some(DefaultCidr(V4))
    && (forall a, b :: a in byNode && b in byNode && byNode[a].table == byNode[b].table ==> byNode[a] == byNode[b])
    && (forall r :: r in k0.rules ==> !(o.markBase <= r.mark < o.markBase + n))
    && (forall key, a :: key in k0.routes && a in byNode ==> key.table != byNode[a].table)
  }

  /** What the kernel sees of a planned policy. */
  ghost predicate PolicyOnKernel(net: Net, o: PlanOptions, byNode: map<string, EgressTarget>, k0: Kernel,
                                 s: seq<RouteRule>) {
    forall j :: 0 <= j < |s| ==>
      && s[j].mark == o.markBase + j && s[j].preference == o.preferenceBase + j
      && RouteKeyOf(net, s[j]) == RouteKey(V4, DefaultCidr(V4), s[j].table)
      && RuleKeyOf(s[j]) !in k0.rules && RouteKeyOf(net, s[j]) !in k0.routes
      && exists a ::
           a in byNode && s[j].table == byNode[a].table && HopOfRule(s[j]) == Hop(byNode[a].gateway, byNode[a].iface)
  }

  lemma PolicyReachesKernel(net: Net, o: PlanOptions, byNode: map<string, EgressTarget>, rules: seq<Rule>,
                            planned: seq<RouteRule>, k0: Kernel)
    requires PlansPolicy(net, o, byNode, rules, planned) && PolicyDeployable(net, o, byNode, |planned|, k0)
    ensures PolicyOnKernel(net, o, byNode, k0, planned)
  {
    hide PlansPolicy;
    forall j | 0 <= j < |planned|
      ensures planned[j].mark == o.markBase + j && planned[j].preference == o.preferenceBase + j
      ensures RouteKeyOf(net, planned[j]) == RouteKey(V4, DefaultCidr(V4), planned[j].table)
      ensures RuleKeyOf(planned[j]) !in k0.rules && RouteKeyOf(net, planned[j]) !in k0.routes
      ensures exists a :: a in byNode && planned[j].table == byNode[a].table
                          && HopOfRule(planned[j]) == Hop(byNode[a].gateway, byNode[a].iface)
    {
      PolicyRouteRuleIs(net, o, byNode, rules, planned, j);
    }
  }

  lemma PolicyInstalls(net: Net, o: PlanOptions, byNode: map<string, EgressTarget>, k0: Kernel, s: seq<RouteRule>)
    requires PolicyOnKernel(net, o, byNode, k0, s) && PolicyDeployable(net, o, byNode, |s|, k0)
    ensures HopsAgree(net, s) && IpRun(k0, Up(net, s, |s|)).Some?
    ensures RulesUp(k0, s, 2 * |s|, IpRun(k0, Up(net, s, |s|)).value)
    ensures RoutesUp(net, k0, s, 2 * |s|, IpRun(k0, Up(net, s, |s|)).value)
  {
    hide RouteKeyOf, HopOfRule, IpRun, Up, RulesUp, RoutesUp, HostBits;
    DefaultHasNoHostBits(V4);
    assert DistinctBy(s, RuleKeys()) by {
      forall i, j | 0 <= i < j < |s| ensures RuleKeys()(s[i]) != RuleKeys()(s[j]) { assert s[i].mark != s[j].mark; }
    }
    assert FreshRoutes(net, k0, s);
    forall i, j | 0 <= i < j < |s| && RouteKeyOf(net, s[i]) == RouteKeyOf(net, s[j])
      ensures HopOfRule(s[i]) == HopOfRule(s[j])
    {
      assert s[i].table == s[j].table;
    }
    UpRuns(net, k0, s, 2 * |s|);
    UpPrefix(net, k0, s, 2 * |s|);
    assert Up(net, s, |s|)[..2 * |s|] == Up(net, s, |s|);
  }

  lemma PolicyOrderIsKept(net: Net, o: PlanOptions, byNode: map<string, EgressTarget>, k0: Kernel,
                          planned: seq<RouteRule>, s: seq<RouteRule>)
    requires PolicyOnKernel(net, o, byNode, k0, planned) && OrderOf(s, planned, RuleBefore)
    ensures s == planned
  {
    hide RouteKeyOf, HopOfRule, RuleKeyOf, StrLess;
    RuleBeforeIsAnOrder();
    StrictOrderIsUnique(planned, s, RuleBefore);
  }

  /** End to end for policies: sorted, rendered and applied by the gateway, a planned policy sends a LAN packet
      out through the gateway and interface of the lowest-ranked rule covering its destination, and nowhere else. */
  lemma PolicyPlanForwards(
    net: Net, o: PlanOptions, byNode: map<string, EgressTarget>, rules: seq<Rule>, planned: seq<RouteRule>,
    s: seq<RouteRule>, k0: Kernel, lan: string, p: Packet, marks: Marks, i: nat)
    requires PlansPolicy(net, o, byNode, rules, planned) && PolicyDeployable(net, o, byNode, |planned|, k0)
    requires OrderOf(s, planned, RuleBefore) && OnInterface(lan, p)
    requires p.family == V4 && p.dst < Pow2(32) && i < |planned|
    requires var ranked := StableSort(rules, Before);
             Covers(net, ranked[i], Destination(p)) && forall j :: i < j < |ranked| ==>
               !Covers(net, ranked[j], Destination(p))
    ensures IpRun(k0, Up(net, s, |s|)).Some?
    ensures net.trim(StableSort(rules, Before)[i].egressNodeID) in byNode
    ensures var target := byNode[net.trim(StableSort(rules, Before)[i].egressNodeID)];
            var out := RunChain(net, PolicyChain(net, lan, s), p, marks);
            OnlyVia(IpRun(k0, Up(net, s, |s|)).value, out.meta, Destination(p), Hop(target.gateway, target.iface))
  {
    hide Covers, Before, RouteKeyOf, RuleKeyOf, IpRun, Up, RulesUp, RoutesUp, HopsAgree, OnlyVia, Pow2, PolicyChain;
    hide RunChain;
    hide LastMark, MarksPacket, PolicyRouteRule;
    var dst := Destination(p);
    PolicyReachesKernel(net, o, byNode, rules, planned, k0);
    PolicyOrderIsKept(net, o, byNode, k0, planned, s);
    PolicyInstalls(net, o, byNode, k0, s);
    PolicyChainIsLastMatch(net, lan, s, p, marks);
    forall j | 0 <= j < |planned| ensures MarksPacket(net, planned[j], dst) <==>
                 Covers(net, StableSort(rules, Before)[j], dst) {
      PolicyPlanAt(net, o, byNode, rules, planned, j, dst);
    }
    LastMarkMatched(net, s, dst, marks.meta, i);
    PolicyRouteRuleIs(net, o, byNode, rules, planned, i);
    DeployedForwards(net, s, k0, IpRun(k0, Up(net, s, |s|)).value, i, dst);
  }
}
