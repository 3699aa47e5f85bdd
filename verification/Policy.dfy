/** The egress policy engine: rules, classification and the merge of rule bundles. */
module Policy {
  import opened Text
  import opened Sorting
  import opened Network

  datatype Rule = Rule(
    id: string, tenantID: string, priority: int, domainSuffix: string,
    ipCIDR: string, asn: int, trafficClass: string, egressNodeID: string)
  datatype Request = Request(tenantID: string, domain: string, ip: string, asn: int, trafficClass: string)
  datatype Decision = Decision(matched: bool, ruleID: string, egressNodeID: string, trafficClass: string)

  const CLASS_DEFAULT := "default"
  const NO_DECISION := Decision(false, "", "", "")

  predicate ValidRule(net: Net, r: Rule) {
    && net.trim(r.id) != "" && net.trim(r.tenantID) != "" && net.trim(r.egressNodeID) != ""
    && (r.domainSuffix != "" || r.ipCIDR != "" || r.asn != 0 || r.trafficClass != "")
    && (r.ipCIDR != "" ==> net.parseCIDR(r.ipCIDR).Some?)
  }

  // ---- matching ----

  function TrimDot(s: string): string { if s != "" && s[|s| - 1] == '.' then s[..|s| - 1] else s }

  predicate HasSuffix(s: string, suffix: string) { |suffix| <= |s| && s[|s| - |suffix|..] == suffix }

  predicate DomainMatches(net: Net, domain: string, suffix: string) {
    var d, s := TrimDot(net.lower(net.trim(domain))), TrimDot(net.lower(net.trim(suffix)));
    d != "" && s != "" && (d == s || HasSuffix(d, "." + s))
  }

  predicate IpMatches(net: Net, ip: string, cidr: string) {
    net.parseIP(ip).Some? && net.parseCIDR(cidr).Some? && Contains(net.parseCIDR(cidr).value, net.parseIP(ip).value)
  }

  predicate RuleMatches(net: Net, r: Rule, q: Request) {
    && (r.domainSuffix != "" ==> DomainMatches(net, q.domain, r.domainSuffix))
    && (r.ipCIDR != "" ==> IpMatches(net, q.ip, r.ipCIDR))
    && (r.asn != 0 ==> q.asn == r.asn)
    && (r.trafficClass != "" ==> q.trafficClass == r.trafficClass)
    && (r.domainSuffix != "" || r.ipCIDR != "" || r.asn != 0 || r.trafficClass != "")
  }

  /** The rule is one of the request's tenant and matches the request. */
  function Applies(net: Net, q: Request): Rule -> bool {
    (r: Rule) => r.tenantID == q.tenantID && RuleMatches(net, r, q)
  }

  // ---- order ----

  /** Higher priority first, then smaller id. */
  predicate Before(a: Rule, b: Rule) {
    if a.priority == b.priority then StrLess(a.id, b.id) else a.priority > b.priority
  }

  lemma BeforeIsAnOrder()
    ensures StrictWeakOrder(Before)
    ensures forall a, b :: !Before(a, b) && !Before(b, a) ==> a.priority == b.priority && a.id == b.id
  {
    hide StrLess;
    StrOrder();
  }

  // ---- the engine ----

  /** `NewEngine`. */
  method NewEngine(net: Net, rules: seq<Rule>) returns (r: Outcome<seq<Rule>>)
    ensures r.Ok? <==> forall i :: 0 <= i < |rules| ==> ValidRule(net, rules[i])
    ensures r.Ok? ==>
              r.value == StableSort(rules, Before) && Sorted(r.value, Before) && multiset(r.value) == multiset(rules)
  {
    for k := 0 to |rules|
      invariant forall i :: 0 <= i < k ==> ValidRule(net, rules[i])
    {
      if !ValidRule(net, rules[k]) { return Rejected; }
    }
    BeforeIsAnOrder();
    StableSortSorts(rules, Before);
    return Ok(StableSort(rules, Before));
  }

  function DecisionOf(r: Option<Rule>, q: Request): Decision {
    match r
    case None => NO_DECISION
    case Some(rule) =>
      Decision(true, rule.id, rule.egressNodeID, if q.trafficClass == "" then rule.trafficClass else q.trafficClass)
  }

  /** `Engine.Evaluate`: a search loop over the engine's rules. */
  method Evaluate(net: Net, engine: seq<Rule>, q: Request) returns (d: Decision)
    ensures d == DecisionOf(FirstSat(engine, Applies(net, q)), q)
  {
    for k := 0 to |engine|
      invariant FirstSat(engine, Applies(net, q)) == FirstSat(engine[k..], Applies(net, q))
    {
      var rule := engine[k];
      assert engine[k..][0] == rule && engine[k..][1..] == engine[k + 1..];
      if rule.tenantID == q.tenantID && RuleMatches(net, rule, q) {
        var trafficClass := if q.trafficClass == "" then rule.trafficClass else q.trafficClass;
        return Decision(true, rule.id, rule.egressNodeID, trafficClass);
      }
    }
    return NO_DECISION;
  }

  /** What a policy decides, without any sorting. */
  function Decide(net: Net, rules: seq<Rule>, q: Request): Decision {
    DecisionOf(BestSat(rules, Before, Applies(net, q)), q)
  }

  /** The engine refines argmax: sort-then-first is the best applying rule, the earliest of ties. */
  lemma EngineIsArgmax(net: Net, rules: seq<Rule>, q: Request)
    ensures DecisionOf(FirstSat(StableSort(rules, Before), Applies(net, q)), q) == Decide(net, rules, q)
    ensures Decide(net, rules, q).matched <==> exists r :: r in rules && Applies(net, q)(r)
    ensures Decide(net, rules, q).matched ==>
              exists r :: Least(rules, Before, Applies(net, q), r) && Decide(net, rules, q) == DecisionOf(Some(r), q)
  {
    hide Before, Applies;
    BeforeIsAnOrder();
    SortThenFirst(rules, Before, Applies(net, q));
    BestSatIsLeast(rules, Before, Applies(net, q));
  }

  /** No two rules of the tenant share priority and id. */
  ghost predicate TieFree(rules: seq<Rule>, tenantID: string) {
    forall a, b ::
      a in rules && b in rules && a.tenantID == b.tenantID == tenantID && a.priority == b.priority && a.id == b.id ==>
        a == b
  }

  /** For tie-free policies the decision is the unique best rule. */
  lemma DecisionUnique(net: Net, rules: seq<Rule>, q: Request, r: Rule)
    requires TieFree(rules, q.tenantID)
    ensures Least(rules, Before, Applies(net, q), r) <==> BestSat(rules, Before, Applies(net, q)) == Some(r)
  {
    hide Before, RuleMatches;
    BeforeIsAnOrder();
    BestSatIsLeast(rules, Before, Applies(net, q));
  }

  /** Rule order is irrelevant for tie-free policies. */
  lemma DecisionIgnoresOrder(net: Net, rules: seq<Rule>, shuffled: seq<Rule>, q: Request)
    requires multiset(rules) == multiset(shuffled) && TieFree(rules, q.tenantID)
    ensures Decide(net, rules, q) == Decide(net, shuffled, q)
  {
    SameMembers(rules, shuffled);
    SameRulesSameDecision(net, rules, shuffled, q);
  }

  lemma SameRulesSameDecision(net: Net, a: seq<Rule>, b: seq<Rule>, q: Request)
    requires (forall r :: r in a <==> r in b) && TieFree(a, q.tenantID)
    ensures Decide(net, a, q) == Decide(net, b, q)
  {
    hide Before, Applies;
    BeforeIsAnOrder();
    BestSatIsLeast(a, Before, Applies(net, q));
    BestSatIsLeast(b, Before, Applies(net, q));
    var best := BestSat(a, Before, Applies(net, q));
    if best.Some? {
      assert Least(b, Before, Applies(net, q), best.value);
      DecisionUnique(net, b, q, best.value);
    }
  }

  // ---- merging rule bundles ----

  /** The last rule of each id wins. */
  function Index(rules: seq<Rule>): map<string, Rule> {
    if rules == [] then map[] else Index(rules[..|rules| - 1])[rules[|rules| - 1].id := rules[|rules| - 1]]
  }

  function RuleID(r: Rule): string { r.id }

  lemma {:induction false} IndexIsKeyed(rules: seq<Rule>)
    ensures KeyedBy(Index(rules), RuleID)
  {
    if rules != [] { IndexIsKeyed(rules[..|rules| - 1]); }
  }

  /** One of the two filling loops of `MergeRules`. */
  method Fill(net: Net, start: map<string, Rule>, rules: seq<Rule>) returns (r: Outcome<map<string, Rule>>)
    ensures r.Ok? <==> forall i :: 0 <= i < |rules| ==> ValidRule(net, rules[i])
    ensures r.Ok? ==> r.value == start + Index(rules)
  {
    hide ValidRule;
    var merged := start;
    for k := 0 to |rules|
      invariant merged == start + Index(rules[..k])
      invariant forall i :: 0 <= i < k ==> ValidRule(net, rules[i])
    {
      if !ValidRule(net, rules[k]) { return Rejected; }
      merged := merged[rules[k].id := rules[k]];
      assert rules[..k + 1][..k] == rules[..k];
    }
    assert rules[..|rules|] == rules;
    return Ok(merged);
  }

  /** `MergeRules`. */
  method MergeRules(net: Net, base: seq<Rule>, updates: seq<Rule>) returns (r: Outcome<seq<Rule>>)
    ensures r.Ok? <==> (forall i :: 0 <= i < |base| ==> ValidRule(net, base[i]))
                       && (forall i :: 0 <= i < |updates| ==> ValidRule(net, updates[i]))
    ensures r.Ok? ==> Lists(r.value, Index(base) + Index(updates), RuleID) && Sorted(r.value, Before)
  {
    hide ValidRule, Before, Index, Lists, Sorted;
    var filled := Fill(net, map[], base);
    if filled.Rejected? { return Rejected; }
    filled := Fill(net, filled.value, updates);
    if filled.Rejected? { return Rejected; }
    var merged := filled.value;
    assert merged == Index(base) + Index(updates);
    IndexIsKeyed(base);
    IndexIsKeyed(updates);
    var rules := RangeValues(merged, RuleID);
    BeforeIsAnOrder();
    StableSortSorts(rules, Before);
    ListsAfterSort(rules, merged, RuleID, Before);
    return Ok(StableSort(rules, Before));
  }

  /** The best rule of an indexed bundle. */
  ghost predicate BestOf(net: Net, m: map<string, Rule>, q: Request, r: Rule) {
    && r.id in m && m[r.id] == r && Applies(net, q)(r)
    && forall s: Rule :: s.id in m && m[s.id] == s && Applies(net, q)(s) ==> !Before(s, r)
  }

  /** Evaluating a merged bundle is evaluating the id-wise overlay of updates over base. */
  lemma MergedDecidesOverlay(net: Net, base: seq<Rule>, updates: seq<Rule>, merged: seq<Rule>, q: Request)
    requires Lists(merged, Index(base) + Index(updates), RuleID)
    ensures forall r :: BestSat(merged, Before, Applies(net, q)) == Some(r) <==>
              BestOf(net, Index(base) + Index(updates), q, r)
  {
    ListedDecision(net, Index(base) + Index(updates), merged, q);
  }

  lemma ListedDecision(net: Net, m: map<string, Rule>, listed: seq<Rule>, q: Request)
    requires Lists(listed, m, RuleID)
    ensures forall r :: BestSat(listed, Before, Applies(net, q)) == Some(r) <==> BestOf(net, m, q, r)
  {
    hide Before, Applies;
    forall r ensures BestSat(listed, Before, Applies(net, q)) == Some(r) <==> BestOf(net, m, q, r) {
      assert TieFree(listed, q.tenantID);
      DecisionUnique(net, listed, q, r);
    }
  }

  // ---- classification ----

  datatype ClassRule = ClassRule(id: string, priority: int, domainSuffix: string, ipCIDR: string, asn: int,
                                 trafficClass: string)

  predicate ClassBefore(a: ClassRule, b: ClassRule) {
    if a.priority == b.priority then StrLess(a.id, b.id) else a.priority > b.priority
  }

  function ClassApplies(net: Net, q: Request): ClassRule -> bool {
    (r: ClassRule) =>
      && (r.domainSuffix != "" ==> DomainMatches(net, q.domain, r.domainSuffix))
      && (r.ipCIDR != "" ==> IpMatches(net, q.ip, r.ipCIDR))
      && (r.asn != 0 ==> q.asn == r.asn)
      && (r.domainSuffix != "" || r.ipCIDR != "" || r.asn != 0)
  }

  /** The class of a request under classification rules in any order: its own class if it has one. */
  function ClassOf(net: Net, rules: seq<ClassRule>, q: Request): string {
    if q.trafficClass != "" then q.trafficClass
    else match BestSat(rules, ClassBefore, ClassApplies(net, q))
      case None => CLASS_DEFAULT
      case Some(r) => r.trafficClass
  }

  /** `Classifier.Classify` on the sorted rules `NewClassifier` keeps. */
  method Classify(net: Net, rules: seq<ClassRule>, q: Request) returns (trafficClass: string)
    ensures trafficClass == ClassOf(net, rules, q)
  {
    hide ClassApplies;
    if q.trafficClass != "" { return q.trafficClass; }
    var sorted := StableSort(rules, ClassBefore);
    ClassBeforeIsAnOrder();
    SortThenFirst(rules, ClassBefore, ClassApplies(net, q));
    for k := 0 to |sorted|
      invariant FirstSat(sorted, ClassApplies(net, q)) == FirstSat(sorted[k..], ClassApplies(net, q))
    {
      assert sorted[k..][0] == sorted[k] && sorted[k..][1..] == sorted[k + 1..];
      if ClassApplies(net, q)(sorted[k]) { return sorted[k].trafficClass; }
    }
    return CLASS_DEFAULT;
  }

  lemma ClassBeforeIsAnOrder()
    ensures StrictWeakOrder(ClassBefore)
  {
    hide StrLess;
    StrOrder();
  }
}
