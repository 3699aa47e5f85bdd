/** From observed traffic and policy to gateway route rules: what is planned is what the policy decides. */
module GatewayPlan {
  import opened Text
  import opened Sorting
  import opened Network
  import opened Policy
  import opened Gateway

  const DEFAULT_POLICY_MARK_BASE: int := 1000
  const DEFAULT_POLICY_PREFERENCE_BASE: int := 10000
  const DEFAULT_DEST := "0.0.0.0/0"

  datatype EgressTarget = EgressTarget(nodeID: string, gateway: string, iface: string, table: int)
  datatype PlanOptions = PlanOptions(markBase: int, preferenceBase: int, destCIDR: string)

  // ---- egress targets, indexed by node ----

  predicate ValidEgress(net: Net, t: EgressTarget) {
    && net.trim(t.nodeID) != "" && (t.gateway != "" ==> net.parseIP(t.gateway).Some?)
    && net.trim(t.iface) != "" && t.table > 0
  }

  function TrimEgress(net: Net, t: EgressTarget): EgressTarget {
    t.(nodeID := net.trim(t.nodeID), iface := net.trim(t.iface))
  }

  ghost predicate EgressUpTo(net: Net, targets: seq<EgressTarget>, k: nat)
    requires k <= |targets|
  {
    && (forall i :: 0 <= i < k ==> ValidEgress(net, targets[i]))
    && (forall i, j :: 0 <= i < j < k ==> net.trim(targets[i].nodeID) != net.trim(targets[j].nodeID))
  }

  ghost predicate EgressIndexUpTo(net: Net, byNode: map<string, EgressTarget>, targets: seq<EgressTarget>, k: nat)
    requires k <= |targets|
  {
    && (forall i :: 0 <= i < k ==>
         net.trim(targets[i].nodeID) in byNode && byNode[net.trim(targets[i].nodeID)] == TrimEgress(net, targets[i]))
    && (forall n :: n in byNode ==>
         byNode[n].nodeID == n && exists i :: 0 <= i < k && byNode[n] == TrimEgress(net, targets[i]))
  }

  /** `egressRouteTargetsByNode`. */
  method TargetsByNode(net: Net, targets: seq<EgressTarget>) returns (r: Outcome<map<string, EgressTarget>>)
    ensures r.Ok? <==> EgressUpTo(net, targets, |targets|)
    ensures r.Ok? ==> EgressIndexUpTo(net, r.value, targets, |targets|)
  {
    hide ValidEgress;
    var byNode: map<string, EgressTarget> := map[];
    for k := 0 to |targets|
      invariant EgressUpTo(net, targets, k) && EgressIndexUpTo(net, byNode, targets, k)
    {
      if !ValidEgress(net, targets[k]) { return Rejected; }
      var t := TrimEgress(net, targets[k]);
      if t.nodeID in byNode {
        ghost var i :| 0 <= i < k && byNode[t.nodeID] == TrimEgress(net, targets[i]);
        return Rejected;
      }
      byNode := byNode[t.nodeID := t];
    }
    return Ok(byNode);
  }

  /** `normalizePolicyRoutePlanOptions`. */
  function NormalizePlanOptions(net: Net, o: PlanOptions): Outcome<PlanOptions> {
    var n := PlanOptions(if o.markBase == 0 then DEFAULT_POLICY_MARK_BASE else o.markBase,
                         if o.preferenceBase == 0 then DEFAULT_POLICY_PREFERENCE_BASE else o.preferenceBase,
                         net.trim(if o.destCIDR == "" then DEFAULT_DEST else o.destCIDR));
    if n.markBase > 0 && n.preferenceBase > 0 && net.parseCIDR(n.destCIDR).Some? then Ok(n) else Rejected
  }

  // ---- the order of observations ----

  /** `%010d`. */
  function Padded10(n: int): string { if n >= 0 then Padded(n, 10) else "-" + Padded(-n, 9) }

  function SortKey(net: Net, q: Request): string {
    net.trim(q.tenantID) + "\U{0}" + net.trim(q.ip) + "\U{0}" + net.trim(q.domain) + "\U{0}" + Padded10(q.asn) +
    "\U{0}" + q.trafficClass
  }

  function ByKey(net: Net): (Request, Request) -> bool {
    (a: Request, b: Request) => StrLess(SortKey(net, a), SortKey(net, b))
  }

  // ---- what one observation asks for ----

  /** Classification rules, when a classifier is configured, and the policy. */
  datatype Rules = Rules(classifier: Option<seq<ClassRule>>, policy: seq<Rule>)

  function AddrOf(net: Net, q: Request): Option<Addr> { net.parseIP(net.trim(q.ip)) }

  /** The request the engine sees: canonical address, classified. */
  function Observed(net: Net, rules: Rules, q: Request): Request
    requires AddrOf(net, q).Some?
  {
    var canonical := q.(ip := net.showIP(AddrOf(net, q).value));
    match rules.classifier
    case None => canonical
    case Some(cs) => canonical.(trafficClass := ClassOf(net, cs, canonical))
  }

  function DecisionFor(net: Net, rules: Rules, q: Request): Decision
    requires AddrOf(net, q).Some?
  {
    Decide(net, rules.policy, Observed(net, rules, q))
  }

  datatype Entry = Entry(addr: Addr, decision: Decision, target: EgressTarget)

  /** An observation plans nothing, one entry, or makes the whole plan fail. */
  function EntryFor(net: Net, rules: Rules, byNode: map<string, EgressTarget>, q: Request): Outcome<Option<Entry>> {
    if AddrOf(net, q).None? then Rejected
    else
      var d := DecisionFor(net, rules, q);
      if !d.matched then Ok(None)
      else if net.trim(d.egressNodeID) !in byNode then Rejected
      else Ok(Some(Entry(AddrOf(net, q).value, d, byNode[net.trim(d.egressNodeID)])))
  }

  function Entries(net: Net, rules: Rules, byNode: map<string, EgressTarget>, qs: seq<Request>): seq<Entry> {
    if qs == [] then []
    else
      var e := EntryFor(net, rules, byNode, qs[|qs| - 1]);
      Entries(net, rules, byNode, qs[..|qs| - 1]) + (if e.Ok? && e.value.Some? then [e.value.value] else [])
  }

  // ---- numbering ----

  function HostText(net: Net, a: Addr): string { net.showIP(a) + (if a.family == V4 then "/32" else "/128") }

  /** The text two observations must share to be planned once. */
  function KeyText(net: Net, e: Entry): string {
    e.decision.ruleID + "|" + HostText(net, e.addr) + "|" + e.target.nodeID
  }

  function Keys(net: Net, es: seq<Entry>): set<string> { set e | e in es :: KeyText(net, e) }

  function Kept(net: Net, es: seq<Entry>): seq<Entry> {
    if es == [] then []
    else
      var before, last := es[..|es| - 1], es[|es| - 1];
      if KeyText(net, last) in Keys(net, before) then Kept(net, before) else Kept(net, before) + [last]
  }

  function Dashed(s: string): string {
    seq(|s|, i requires 0 <= i < |s| => if s[i] in {'/', '.', ':', ' '} then '-' else s[i])
  }

  function TrimDashes(s: string): string {
    if s != "" && s[0] == '-' then TrimDashes(s[1..])
    else if s != "" && s[|s| - 1] == '-' then TrimDashes(s[..|s| - 1])
    else s
  }

  function NamePart(net: Net, s: string): string {
    var n := TrimDashes(Dashed(net.trim(s)));
    if n == "" then "unnamed" else n
  }

  /** The route rule of the entry planned at position `i`; `raw` is the trimmed destination option. */
  function RuleFor(net: Net, o: PlanOptions, raw: string, e: Entry, i: nat): RouteRule {
    RouteRule("observed-" + NamePart(net, e.decision.ruleID) + "-" + NamePart(net, HostText(net, e.addr)),
              Wrap(o.markBase + i), HostText(net, e.addr), e.target.table,
              if raw == "" && e.addr.family == V6 then "::/0" else o.destCIDR,
              e.target.gateway, e.target.iface, Wrap(o.preferenceBase + i))
  }

  function Numbered(net: Net, o: PlanOptions, raw: string, es: seq<Entry>): (rs: seq<RouteRule>)
    ensures |rs| == |es|
  {
    seq(|es|, i requires 0 <= i < |es| => RuleFor(net, o, raw, es[i], i))
  }

  /** Everything the planner checks before it can return a plan. */
  ghost predicate Plannable(net: Net, rules: Rules, targets: seq<EgressTarget>, options: PlanOptions,
                            observations: seq<Request>, byNode: map<string, EgressTarget>) {
    && NormalizePlanOptions(net, options).Ok? && EgressUpTo(net, targets, |targets|)
    && EgressIndexUpTo(net, byNode, targets, |targets|)
    && (forall i :: 0 <= i < |rules.policy| ==> ValidRule(net, rules.policy[i]))
    && (forall i :: 0 <= i < |observations| ==> EntryFor(net, rules, byNode, observations[i]).Ok?)
  }

  ghost function PlanFor(net: Net, rules: Rules, options: PlanOptions, observations: seq<Request>,
                         byNode: map<string, EgressTarget>): seq<RouteRule>
    requires NormalizePlanOptions(net, options).Ok?
  {
    Numbered(net, NormalizePlanOptions(net, options).value, net.trim(options.destCIDR),
             Kept(net, Entries(net, rules, byNode, StableSort(observations, ByKey(net)))))
  }

  /** One round of the planner's loop, up to the duplicate check. */
  method Resolve(net: Net, rules: Rules, engine: seq<Rule>, byNode: map<string, EgressTarget>, q: Request)
    returns (r: Outcome<Option<Entry>>)
    requires engine == StableSort(rules.policy, Before)
    ensures r == EntryFor(net, rules, byNode, q)
  {
    hide Decide, ClassOf, Before;
    var ip := net.parseIP(net.trim(q.ip));
    if ip.None? { return Rejected; }
    var request := q.(ip := net.showIP(ip.value));
    if rules.classifier.Some? {
      var c := Classify(net, rules.classifier.value, request);
      request := request.(trafficClass := c);
    }
    var decision := Evaluate(net, engine, request);
    EngineIsArgmax(net, rules.policy, request);
    if !decision.matched { return Ok(None); }
    var node := net.trim(decision.egressNodeID);
    if node !in byNode { return Rejected; }
    return Ok(Some(Entry(ip.value, decision, byNode[node])));
  }

  /** `PlanObservedPolicyRouteRules`. */
  method PlanObserved(net: Net, observations: seq<Request>, rules: Rules, targets: seq<EgressTarget>,
                      options: PlanOptions)
    returns (r: Outcome<seq<RouteRule>>, byNode: map<string, EgressTarget>)
    ensures r.Ok? ==>
              Plannable(net, rules, targets, options, observations, byNode)
              && r.value == PlanFor(net, rules, options, observations, byNode)
    ensures r.Rejected? ==> forall m :: !Plannable(net, rules, targets, options, observations, m)
  {
    hide ValidRule, EntryFor, Before, ByKey, ValidEgress, EgressUpTo;
    byNode := map[];
    var normalized := NormalizePlanOptions(net, options);
    if normalized.Rejected? { return Rejected, byNode; }
    var indexed := TargetsByNode(net, targets);
    if indexed.Rejected? { return Rejected, byNode; }
    byNode := indexed.value;
    var engine := NewEngine(net, rules.policy);
    if engine.Rejected? { return Rejected, byNode; }
    var requests := StableSort(observations, ByKey(net));
    SameMembers(requests, observations);
    var entries := CollectEntries(net, rules, engine.value, byNode, requests);
    if entries.Rejected? {
      ghost var i :| 0 <= i < |requests| && EntryFor(net, rules, byNode, requests[i]).Rejected?;
      assert requests[i] in observations;
      ghost var j :| 0 <= j < |observations| && observations[j] == requests[i];
      forall m ensures !Plannable(net, rules, targets, options, observations, m) {
        if EgressIndexUpTo(net, m, targets, |targets|) { IndexIsUnique(net, byNode, m, targets); }
      }
      return Rejected, byNode;
    }
    forall i | 0 <= i < |observations| ensures EntryFor(net, rules, byNode, observations[i]).Ok? {
      assert observations[i] in requests;
    }
    var planned := Number(net, normalized.value, net.trim(options.destCIDR), entries.value);
    return Ok(planned), byNode;
  }

  lemma IndexIsUnique(net: Net, a: map<string, EgressTarget>, b: map<string, EgressTarget>, targets: seq<EgressTarget>)
    requires EgressIndexUpTo(net, a, targets, |targets|) && EgressIndexUpTo(net, b, targets, |targets|)
    ensures a == b
  {
    assert forall n :: n in a ==> n in b && a[n] == b[n];
    assert forall n :: n in b ==> n in a;
  }

  lemma NoEntries(net: Net, rules: Rules, byNode: map<string, EgressTarget>)
    ensures Entries(net, rules, byNode, []) == []
  {
  }

  lemma EntriesAppend(net: Net, rules: Rules, byNode: map<string, EgressTarget>, qs: seq<Request>, k: nat)
    requires k < |qs|
    ensures var e := EntryFor(net, rules, byNode, qs[k]);
            Entries(net, rules, byNode, qs[..k + 1]) ==
              Entries(net, rules, byNode, qs[..k]) + (if e.Ok? && e.value.Some? then [e.value.value] else [])
  {
    hide EntryFor;
    assert qs[..k + 1][..k] == qs[..k];
  }

  /** The planner's loop, up to the duplicate check. */
  method CollectEntries(net: Net, rules: Rules, engine: seq<Rule>, byNode: map<string, EgressTarget>,
                        requests: seq<Request>)
    returns (r: Outcome<seq<Entry>>)
    requires engine == StableSort(rules.policy, Before)
    ensures r.Ok? <==> forall i :: 0 <= i < |requests| ==> EntryFor(net, rules, byNode, requests[i]).Ok?
    ensures r.Ok? ==> r.value == Entries(net, rules, byNode, requests)
  {
    hide EntryFor, Before, Entries;
    var entries: seq<Entry> := [];
    assert Entries(net, rules, byNode, []) == [] by { NoEntries(net, rules, byNode); }
    for k := 0 to |requests|
      invariant forall i :: 0 <= i < k ==> EntryFor(net, rules, byNode, requests[i]).Ok?
      invariant entries == Entries(net, rules, byNode, requests[..k])
    {
      var entry := Resolve(net, rules, engine, byNode, requests[k]);
      if entry.Rejected? { return Rejected; }
      EntriesAppend(net, rules, byNode, requests, k);
      if entry.value.Some? { entries := entries + [entry.value.value]; }
    }
    assert requests[..|requests|] == requests;
    return Ok(entries);
  }

  /** The `seen` and numbering part of the loop. */
  method Number(net: Net, o: PlanOptions, raw: string, entries: seq<Entry>) returns (planned: seq<RouteRule>)
    ensures planned == Numbered(net, o, raw, Kept(net, entries))
  {
    hide KeyText, RuleFor;
    planned := [];
    var seen: set<string> := {};
    for k := 0 to |entries|
      invariant seen == Keys(net, entries[..k])
      invariant planned == Numbered(net, o, raw, Kept(net, entries[..k]))
    {
      var e := entries[k];
      assert entries[..k + 1][..k] == entries[..k] && entries[..k + 1] == entries[..k] + [e];
      var key := KeyText(net, e);
      if key !in seen {
        seen := seen + {key};
        planned := planned + [RuleFor(net, o, raw, e, |planned|)];
      }
    }
    assert entries[..|entries|] == entries;
  }

  // ---- planning whole policies ----

  /** The route rule of the policy rule ranked at position `i`. */
  function PolicyRouteRule(net: Net, o: PlanOptions, t: EgressTarget, r: Rule, i: nat): RouteRule {
    RouteRule("policy-" + r.id, Wrap(o.markBase + i), net.trim(r.ipCIDR), t.table, o.destCIDR, t.gateway, t.iface,
              Wrap(o.preferenceBase + i))
  }

  ghost predicate KnownEgress(net: Net, byNode: map<string, EgressTarget>, rules: seq<Rule>) {
    forall i :: 0 <= i < |rules| ==> net.trim(rules[i].egressNodeID) in byNode
  }

  /** `planned` ranks the policy rules and gives each its egress node's route. */
  ghost predicate PlansPolicy(net: Net, o: PlanOptions, byNode: map<string, EgressTarget>, rules: seq<Rule>,
                              planned: seq<RouteRule>) {
    var ranked := StableSort(rules, Before);
    && KnownEgress(net, byNode, ranked) && |planned| == |ranked|
    && forall i :: 0 <= i < |ranked| ==>
         planned[i] == PolicyRouteRule(net, o, byNode[net.trim(ranked[i].egressNodeID)], ranked[i], i)
  }

  /** Everything the policy planner checks before it can return a plan. */
  ghost predicate PolicyPlannable(
    net: Net, rules: seq<Rule>, targets: seq<EgressTarget>, options: PlanOptions, byNode: map<string, EgressTarget>
  ) {
    && NormalizePlanOptions(net, options).Ok? && EgressUpTo(net, targets, |targets|)
    && EgressIndexUpTo(net, byNode, targets, |targets|)
    && (forall i :: 0 <= i < |rules| ==> ValidRule(net, rules[i])) && KnownEgress(net, byNode, rules)
  }

  /** `PlanPolicyRouteRules`. */
  method PlanPolicy(net: Net, rules: seq<Rule>, targets: seq<EgressTarget>, options: PlanOptions)
    returns (r: Outcome<seq<RouteRule>>, byNode: map<string, EgressTarget>)
    ensures r.Ok? ==> PolicyPlannable(net, rules, targets, options, byNode)
                      && PlansPolicy(net, NormalizePlanOptions(net, options).value, byNode, rules, r.value)
    ensures r.Rejected? ==> forall m :: !PolicyPlannable(net, rules, targets, options, m)
  {
    hide ValidRule, ValidEgress, Before, PolicyRouteRule, EgressUpTo, NormalizePlanOptions, EgressIndexUpTo;
    byNode := map[];
    var normalized := NormalizePlanOptions(net, options);
    if normalized.Rejected? { return Rejected, byNode; }
    var indexed := TargetsByNode(net, targets);
    if indexed.Rejected? { return Rejected, byNode; }
    byNode := indexed.value;
    for k := 0 to |rules|
      invariant forall i :: 0 <= i < k ==> ValidRule(net, rules[i]) && net.trim(rules[i].egressNodeID) in byNode
    {
      if !ValidRule(net, rules[k]) || net.trim(rules[k].egressNodeID) !in byNode {
        forall m ensures !PolicyPlannable(net, rules, targets, options, m) {
          if EgressIndexUpTo(net, m, targets, |targets|) { IndexIsUnique(net, byNode, m, targets); }
        }
        return Rejected, byNode;
      }
    }
    var ranked := StableSort(rules, Before);
    SameMembers(ranked, rules);
    assert forall i :: 0 <= i < |ranked| ==> ranked[i] in rules;
    var planned: seq<RouteRule> := [];
    for k := 0 to |ranked|
      invariant |planned| == k
      invariant forall i :: 0 <= i < k ==>
                  planned[i] ==
                    PolicyRouteRule(net, normalized.value, byNode[net.trim(ranked[i].egressNodeID)], ranked[i], i)
    {
      var target := byNode[net.trim(ranked[k].egressNodeID)];
      planned := planned + [PolicyRouteRule(net, normalized.value, target, ranked[k], k)];
    }
    return Ok(planned), byNode;
  }
}
