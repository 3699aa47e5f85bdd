/** What the observation planner takes, and what it plans, said without its own helpers. */
module GatewayPlanMeaning {
  import opened Text
  import opened Sorting
  import opened Network
  import opened Policy
  import opened Gateway
  import opened GatewayPlan
  import opened GatewayAgreement

  // ---- what is taken ----

  function DestinationText(net: Net, o: PlanOptions): string {
    net.trim(if o.destCIDR == "" then "0.0.0.0/0" else o.destCIDR)
  }

  /** Options are taken when the bases are not negative and the destination parses; zero bases mean 1000 and 10000. */
  lemma PlanOptionsIff(net: Net, o: PlanOptions)
    ensures NormalizePlanOptions(net, o).Ok? <==>
            o.markBase >= 0 && o.preferenceBase >= 0 && net.parseCIDR(DestinationText(net, o)).Some?
    ensures NormalizePlanOptions(net, o).Ok? ==>
              NormalizePlanOptions(net, o).value ==
              PlanOptions(if o.markBase > 0 then o.markBase else 1000, if o.preferenceBase > 0
              then o.preferenceBase else 10000,
                          DestinationText(net, o))
  {
  }

  ghost predicate EgressFits(net: Net, t: EgressTarget) {
    net.trim(t.nodeID) != "" && net.trim(t.iface) != "" && t.table >= 1
    && (t.gateway == "" || net.parseIP(t.gateway).Some?)
  }

  ghost predicate EgressesFit(net: Net, targets: seq<EgressTarget>) {
    && (forall t :: t in targets ==> EgressFits(net, t))
    && (forall i, j :: 0 <= i < j < |targets| ==> net.trim(targets[i].nodeID) != net.trim(targets[j].nodeID))
  }

  lemma EgressesIff(net: Net, targets: seq<EgressTarget>)
    ensures EgressUpTo(net, targets, |targets|) <==> EgressesFit(net, targets)
  {
    assert forall t :: ValidEgress(net, t) <==> EgressFits(net, t);
    hide ValidEgress, EgressFits;
    if EgressUpTo(net, targets, |targets|) {
      forall t | t in targets ensures EgressFits(net, t) {
        var i :| 0 <= i < |targets| && targets[i] == t;
      }
    }
    if EgressesFit(net, targets) {
      assert forall i :: 0 <= i < |targets| ==> targets[i] in targets;
    }
  }

  /** An observation is decided on its canonical address, and by its classification when a classifier is configured. */
  lemma DecisionForIs(net: Net, rules: Rules, q: Request, a: Addr)
    requires net.parseIP(net.trim(q.ip)) == Some(a)
    ensures var canonical := Request(q.tenantID, q.domain, net.showIP(a), q.asn, q.trafficClass);
            DecisionFor(net, rules, q) ==
            Decide(net, rules.policy,
                   if rules.classifier.None? then canonical
                   else canonical.(trafficClass := ClassOf(net, rules.classifier.value, canonical)))
  {
    hide Decide, ClassOf;
  }

  /** The node decided for is among the targets. */
  ghost predicate Reachable(net: Net, targets: seq<EgressTarget>, d: Decision) {
    exists t :: t in targets && net.trim(t.nodeID) == net.trim(d.egressNodeID)
  }

  /** What one observation plans: nothing if unmatched, else an entry for its address and the node decided for. */
  lemma EntryForIs(net: Net, rules: Rules, targets: seq<EgressTarget>, byNode: map<string, EgressTarget>, q: Request)
    requires EgressIndexUpTo(net, byNode, targets, |targets|)
    ensures EntryFor(net, rules, byNode, q).Ok? <==>
            && net.parseIP(net.trim(q.ip)).Some?
            && (DecisionFor(net, rules, q).matched ==> Reachable(net, targets, DecisionFor(net, rules, q)))
    ensures net.parseIP(net.trim(q.ip)).Some? && !DecisionFor(net, rules, q).matched ==>
              EntryFor(net, rules, byNode, q) == Ok(None)
    ensures EntryFor(net, rules, byNode, q).Ok? && DecisionFor(net, rules, q).matched ==>
              var d := DecisionFor(net, rules, q);
              exists t :: t in targets && net.trim(t.nodeID) == net.trim(d.egressNodeID)
                && EntryFor(net, rules, byNode, q) ==
                   Ok(Some(Entry(net.parseIP(net.trim(q.ip)).value, d,
                                 EgressTarget(net.trim(t.nodeID), t.gateway, net.trim(t.iface), t.table))))
  {
    hide DecisionFor;
    if net.parseIP(net.trim(q.ip)).Some? && DecisionFor(net, rules, q).matched {
      var n := net.trim(DecisionFor(net, rules, q).egressNodeID);
      if n in byNode {
        var i :| 0 <= i < |targets| && byNode[n] == TrimEgress(net, targets[i]);
        assert targets[i] in targets && net.trim(targets[i].nodeID) == n;
      }
      if t :| t in targets && net.trim(t.nodeID) == n {
        var i :| 0 <= i < |targets| && targets[i] == t;
        assert n in byNode;
      }
    }
  }

  /** Planning succeeds exactly when options, targets and rules are usable, every observed address parses, and
      every matched observation's egress node is among the targets. */
  lemma PlanningSucceedsIff(net: Net, rules: Rules, targets: seq<EgressTarget>, options: PlanOptions,
                            observations: seq<Request>, byNode: map<string, EgressTarget>)
    requires EgressIndexUpTo(net, byNode, targets, |targets|)
    ensures Plannable(net, rules, targets, options, observations, byNode) <==>
            && NormalizePlanOptions(net, options).Ok? && EgressesFit(net, targets)
            && (forall r :: r in rules.policy ==> ValidRule(net, r))
            && (forall q :: q in observations ==> net.parseIP(net.trim(q.ip)).Some?)
            && (forall q :: q in observations && DecisionFor(net, rules, q).matched ==>
                 Reachable(net, targets, DecisionFor(net, rules, q)))
  {
    hide NormalizePlanOptions, EgressesFit, EgressUpTo, EgressIndexUpTo, ValidRule, EntryFor, DecisionFor, Reachable;
    EgressesIff(net, targets);
    forall q ensures EntryFor(net, rules, byNode, q).Ok? <==>
                     net.parseIP(net.trim(q.ip)).Some?
                     && (DecisionFor(net, rules, q).matched ==> Reachable(net, targets, DecisionFor(net, rules, q))) {
      EntryForIs(net, rules, targets, byNode, q);
    }
    assert forall i :: 0 <= i < |observations| ==> observations[i] in observations;
    assert forall i :: 0 <= i < |rules.policy| ==> rules.policy[i] in rules.policy;
  }

  // ---- what is planned ----

  /** No rule, address and node are planned twice. */
  lemma PlannedOnce(net: Net, es: seq<Entry>, i: nat, j: nat)
    requires i < j < |Kept(net, es)|
    ensures var a, b := Kept(net, es)[i], Kept(net, es)[j];
            !(a.decision.ruleID == b.decision.ruleID && a.addr == b.addr && a.target.nodeID == b.target.nodeID)
  {
    KeysAreDistinct(net, es, i, j);
  }

  lemma {:induction false} KeysAreDistinct(net: Net, es: seq<Entry>, i: nat, j: nat)
    requires i < j < |Kept(net, es)|
    ensures KeyText(net, Kept(net, es)[i]) != KeyText(net, Kept(net, es)[j])
    decreases |es|
  {
    hide KeyText;
    var before, last := es[..|es| - 1], es[|es| - 1];
    if j < |Kept(net, before)| {
      KeysAreDistinct(net, before, i, j);
    } else {
      KeptSubset(net, before);
      assert Kept(net, before)[i] in before;
    }
  }

  /** The planned rule of the entry at `i`, field by field; IPv6 goes to the IPv6 default unless told otherwise. */
  lemma PlannedRuleIs(net: Net, options: PlanOptions, es: seq<Entry>, i: nat)
    requires NormalizePlanOptions(net, options).Ok? && NoOverflow(NormalizePlanOptions(net, options).value, |es|)
             && i < |es|
    ensures var o := NormalizePlanOptions(net, options).value;
            var r := Numbered(net, o, net.trim(options.destCIDR), es)[i];
            && r.mark == (if options.markBase == 0 then 1000 else options.markBase) + i
            && r.preference == (if options.preferenceBase == 0 then 10000 else options.preferenceBase) + i
            && r.table == es[i].target.table && r.gateway == es[i].target.gateway && r.iface == es[i].target.iface
            && r.matchCIDR == net.showIP(es[i].addr) + (if es[i].addr.family == V6 then "/128" else "/32")
            && r.destCIDR ==
                 (if es[i].addr.family == V6 && net.trim(options.destCIDR) == "" then "::/0"
                 else DestinationText(net, options))
  {
    hide NamePart;
    PlanOptionsIff(net, options);
  }

  /** Rule names are made of two parts, each some text without separators and without dashes at its ends. */
  lemma PlannedNameIs(net: Net, o: PlanOptions, raw: string, es: seq<Entry>, i: nat)
    requires i < |es|
    ensures var rule, address := NamePart(net, es[i].decision.ruleID), NamePart(net, HostText(net, es[i].addr));
            && Numbered(net, o, raw, es)[i].name == "observed-" + rule + "-" + address
            && PlainName(rule) && PlainName(address)
  {
    NamePartIsPlain(net, es[i].decision.ruleID);
    NamePartIsPlain(net, HostText(net, es[i].addr));
  }

  predicate PlainName(s: string) {
    |s| > 0 && s[0] != '-' && s[|s| - 1] != '-' && forall i :: 0 <= i < |s| ==> s[i] !in {'/', '.', ':', ' '}
  }

  lemma NamePartIsPlain(net: Net, s: string)
    ensures PlainName(NamePart(net, s))
  {
    TrimDashesEdges(Dashed(net.trim(s)));
  }

  lemma {:induction false} TrimDashesEdges(s: string)
    requires forall i :: 0 <= i < |s| ==> s[i] !in {'/', '.', ':', ' '}
    ensures var r := TrimDashes(s);
            && (r != "" ==> r[0] != '-' && r[|r| - 1] != '-')
            && forall i :: 0 <= i < |r| ==> r[i] !in {'/', '.', ':', ' '}
    decreases |s|
  {
    if s != "" && s[0] == '-' {
      TrimDashesEdges(s[1..]);
    } else if s != "" && s[|s| - 1] == '-' {
      TrimDashesEdges(s[..|s| - 1]);
    }
  }

  // ---- the order of planning ----

  /** Texts joined by a separator that sorts below everything in them are ordered part by part. */
  lemma {:induction false} SeparatedOrder(x: string, y: string, u: string, v: string)
    requires forall i :: 0 <= i < |x| ==> x[i] > '\U{0}'
    requires forall i :: 0 <= i < |y| ==> y[i] > '\U{0}'
    ensures StrLess(x + "\U{0}" + u, y + "\U{0}" + v) <==> StrLess(x, y) || (x == y && StrLess(u, v))
    decreases |x|
  {
    var a, b := x + "\U{0}" + u, y + "\U{0}" + v;
    if x == "" && y == "" {
      assert a[1..] == u && b[1..] == v;
    } else if x != "" && y != "" {
      assert a[0] == x[0] && b[0] == y[0] && a[1..] == x[1..] + "\U{0}" + u && b[1..] == y[1..] + "\U{0}" + v;
      SeparatedOrder(x[1..], y[1..], u, v);
      assert x == [x[0]] + x[1..] && y == [y[0]] + y[1..];
    } else if x == "" {
      assert a[0] == '\U{0}' && b[0] == y[0];
    } else {
      assert b[0] == '\U{0}' && a[0] == x[0];
    }
  }

  ghost predicate NoNul(s: string) { forall i :: 0 <= i < |s| ==> s[i] > '\U{0}' }

  /** Observations are planned by tenant, then address text. */
  lemma PlannedByTenantThenAddress(net: Net, a: Request, b: Request)
    requires NoNul(net.trim(a.tenantID)) && NoNul(net.trim(b.tenantID)) && NoNul(net.trim(a.ip))
             && NoNul(net.trim(b.ip))
    ensures StrLess(net.trim(a.tenantID), net.trim(b.tenantID)) ==> ByKey(net)(a, b)
    ensures net.trim(a.tenantID) == net.trim(b.tenantID) && StrLess(net.trim(a.ip), net.trim(b.ip)) ==> ByKey(net)(a, b)
  {
    hide StrLess, Padded10;
    var restA := net.trim(a.domain) + "\U{0}" + Padded10(a.asn) + "\U{0}" + a.trafficClass;
    var restB := net.trim(b.domain) + "\U{0}" + Padded10(b.asn) + "\U{0}" + b.trafficClass;
    var x, y := net.trim(a.tenantID), net.trim(b.tenantID);
    var u, v := net.trim(a.ip) + "\U{0}" + restA, net.trim(b.ip) + "\U{0}" + restB;
    assert SortKey(net, a) == x + "\U{0}" + u && SortKey(net, b) == y + "\U{0}" + v;
    SeparatedOrder(x, y, u, v);
    SeparatedOrder(net.trim(a.ip), net.trim(b.ip), restA, restB);
  }
}
