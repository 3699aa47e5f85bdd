/** What policy rules and classification rules mean: labels, conditions and ranks, without the matcher. */
module PolicyMeaning {
  import opened Text
  import opened Sorting
  import opened Network
  import opened Policy

  // ---- domain names ----

  /** The dot-separated labels of a name. */
  function Labels(s: string): (ls: seq<string>)
    ensures |ls| >= 1
  {
    if s == "" then [""]
    else if s[0] == '.' then [""] + Labels(s[1..])
    else var rest := Labels(s[1..]); [[s[0]] + rest[0]] + rest[1..]
  }

  function Join(ls: seq<string>): string
    requires |ls| >= 1
  {
    if |ls| == 1 then ls[0] else ls[0] + "." + Join(ls[1..])
  }

  lemma {:induction false} JoinLabels(s: string)
    ensures Join(Labels(s)) == s
  {
    if s != "" {
      JoinLabels(s[1..]);
      var rest := Labels(s[1..]);
      if s[0] == '.' {
        assert ([""] + rest)[1..] == rest;
        assert s == "." + s[1..];
      } else {
        var ls := [[s[0]] + rest[0]] + rest[1..];
        assert ls[1..] == rest[1..];
        assert s == [s[0]] + s[1..];
      }
    }
  }

  lemma {:induction false} JoinAppend(a: seq<string>, b: seq<string>)
    requires |a| >= 1 && |b| >= 1
    ensures Join(a + b) == Join(a) + "." + Join(b)
  {
    if |a| == 1 {
      assert (a + b)[1..] == b;
    } else {
      assert (a + b)[1..] == a[1..] + b;
      JoinAppend(a[1..], b);
    }
  }

  lemma {:induction false} LabelsAppend(x: string, y: string)
    ensures Labels(x + "." + y) == Labels(x) + Labels(y)
  {
    var s := x + "." + y;
    if x == "" {
      assert s[1..] == y;
    } else {
      assert s[1..] == x[1..] + "." + y;
      LabelsAppend(x[1..], y);
    }
  }

  /** The labels of `suffix` are the last labels of `domain`. */
  predicate Under(domain: string, suffix: string) {
    var d, s := Labels(domain), Labels(suffix);
    |s| <= |d| && d[|d| - |s|..] == s
  }

  lemma UnderIff(d: string, s: string)
    ensures Under(d, s) <==> d == s || HasSuffix(d, "." + s)
  {
    hide Under, HasSuffix;
    if Under(d, s) { UnderEnds(d, s); }
    if d == s || HasSuffix(d, "." + s) { EndsUnder(d, s); }
  }

  lemma EndsUnder(d: string, s: string)
    requires d == s || HasSuffix(d, "." + s)
    ensures Under(d, s)
  {
    hide Labels;
    if d != s {
      var x := d[..|d| - |s| - 1];
      assert d == x + ("." + s) == x + "." + s;
      LabelsAppend(x, s);
    }
  }

  lemma UnderEnds(d: string, s: string)
    requires Under(d, s)
    ensures d == s || HasSuffix(d, "." + s)
  {
    hide Labels, Join;
    var ld, ls := Labels(d), Labels(s);
    JoinLabels(d);
    JoinLabels(s);
    if |ld| == |ls| {
      assert ld == ls;
    } else {
      var front := ld[..|ld| - |ls|];
      assert ld == front + ls;
      JoinAppend(front, ls);
      assert d == Join(front) + ("." + s);
    }
  }

  /** `name` is `text` trimmed, in lower case, and without one closing dot. */
  ghost predicate Normalised(net: Net, text: string, name: string) {
    var lowered := net.lower(net.trim(text));
    if |lowered| > 0 && lowered[|lowered| - 1] == '.' then lowered == name + "." else lowered == name
  }

  /** A domain matches exactly the non-empty suffixes whose labels are its own last labels. */
  lemma DomainMatchesIff(net: Net, domain: string, suffix: string, d: string, s: string)
    requires Normalised(net, domain, d) && Normalised(net, suffix, s)
    ensures DomainMatches(net, domain, suffix) <==> d != "" && s != "" && Under(d, s)
  {
    assert TrimDot(net.lower(net.trim(domain))) == d && TrimDot(net.lower(net.trim(suffix))) == s;
    UnderIff(d, s);
  }

  // ---- conditions of a rule ----

  /** The four conditions a rule can have, each read on its own. */
  ghost predicate DomainHolds(net: Net, suffix: string, q: Request) {
    exists d, s :: Normalised(net, q.domain, d) && Normalised(net, suffix, s) && d != "" && s != "" && Under(d, s)
  }

  ghost predicate AddressHolds(net: Net, cidr: string, q: Request) {
    exists a, c :: net.parseIP(q.ip) == Some(a) && net.parseCIDR(cidr) == Some(c) && Contains(c, a)
  }

  lemma {:induction false} NormalisedExists(net: Net, text: string) returns (name: string)
    ensures Normalised(net, text, name)
  {
    name := TrimDot(net.lower(net.trim(text)));
  }

  lemma NormalisedOnce(net: Net, text: string, a: string, b: string)
    requires Normalised(net, text, a) && Normalised(net, text, b)
    ensures a == b
  {
    var lowered := net.lower(net.trim(text));
    if |lowered| > 0 && lowered[|lowered| - 1] == '.' {
      assert a == lowered[..|lowered| - 1] && b == lowered[..|lowered| - 1];
    }
  }

  lemma DomainHoldsIff(net: Net, suffix: string, q: Request)
    ensures DomainHolds(net, suffix, q) <==> DomainMatches(net, q.domain, suffix)
  {
    hide Under, DomainMatches, Normalised;
    var d := NormalisedExists(net, q.domain);
    var s := NormalisedExists(net, suffix);
    DomainMatchesIff(net, q.domain, suffix, d, s);
    if d2, s2 :| Normalised(net, q.domain, d2) && Normalised(net, suffix, s2) && d2 != "" && s2 != "" && Under(d2, s2) {
      NormalisedOnce(net, q.domain, d, d2);
      NormalisedOnce(net, suffix, s, s2);
    }
  }

  /** A rule applies exactly when it is the tenant's, has a condition, and every condition it has holds. */
  lemma AppliesIff(net: Net, r: Rule, q: Request)
    ensures Applies(net, q)(r) <==>
            && r.tenantID == q.tenantID
            && !(r.domainSuffix == "" && r.ipCIDR == "" && r.asn == 0 && r.trafficClass == "")
            && (r.domainSuffix == "" || DomainHolds(net, r.domainSuffix, q))
            && (r.ipCIDR == "" || AddressHolds(net, r.ipCIDR, q))
            && (r.asn == 0 || q.asn == r.asn) && (r.trafficClass == "" || q.trafficClass == r.trafficClass)
  {
    hide DomainHolds, DomainMatches, Contains;
    DomainHoldsIff(net, r.domainSuffix, q);
    assert AddressHolds(net, r.ipCIDR, q) <==> IpMatches(net, q.ip, r.ipCIDR);
  }

  /** The same for classification rules, which have no class condition and no tenant. */
  lemma ClassAppliesIff(net: Net, r: ClassRule, q: Request)
    ensures ClassApplies(net, q)(r) <==>
            && !(r.domainSuffix == "" && r.ipCIDR == "" && r.asn == 0)
            && (r.domainSuffix == "" || DomainHolds(net, r.domainSuffix, q))
            && (r.ipCIDR == "" || AddressHolds(net, r.ipCIDR, q)) && (r.asn == 0 || q.asn == r.asn)
  {
    hide DomainHolds, DomainMatches, Contains;
    DomainHoldsIff(net, r.domainSuffix, q);
    assert AddressHolds(net, r.ipCIDR, q) <==> IpMatches(net, q.ip, r.ipCIDR);
  }

  /** The engine takes exactly the rules with names, a condition, and a CIDR that parses if there is one. */
  lemma EngineTakesRule(net: Net, r: Rule)
    ensures ValidRule(net, r) <==>
            && (forall name :: name in [r.id, r.tenantID, r.egressNodeID] ==> net.trim(name) != "")
            && !(r.domainSuffix == "" && r.ipCIDR == "" && r.asn == 0 && r.trafficClass == "")
            && (r.ipCIDR == "" || net.parseCIDR(r.ipCIDR).Some?)
  {
    var names := [r.id, r.tenantID, r.egressNodeID];
    assert names[0] in names && names[1] in names && names[2] in names;
  }

  // ---- ranks ----

  /** `r` outranks or equals `other`: higher priority, or the same and no greater id. */
  predicate Ranks(priority: int, id: string, otherPriority: int, otherID: string) {
    priority > otherPriority || (priority == otherPriority && (id == otherID || StrLess(id, otherID)))
  }

  /** The decision is that of an applying rule no applying rule outranks, and carries its id and egress; the
      request keeps its own class if it has one. */
  lemma DecisionIsTopRule(net: Net, rules: seq<Rule>, q: Request)
    ensures Decide(net, rules, q).matched <==> exists r :: r in rules && Applies(net, q)(r)
    ensures Decide(net, rules, q).matched ==>
              exists r :: r in rules && Applies(net, q)(r) && TopRule(net, rules, q, r)
                && Decide(net, rules, q) ==
                   Decision(true, r.id, r.egressNodeID, if q.trafficClass != "" then q.trafficClass else r.trafficClass)
    ensures !Decide(net, rules, q).matched ==> Decide(net, rules, q) == Decision(false, "", "", "")
  {
    hide Applies, StrLess;
    StrOrder();
    EngineIsArgmax(net, rules, q);
    if Decide(net, rules, q).matched {
      var r :| Least(rules, Before, Applies(net, q), r) && Decide(net, rules, q) == DecisionOf(Some(r), q);
      assert TopRule(net, rules, q, r);
    }
  }

  ghost predicate TopRule(net: Net, rules: seq<Rule>, q: Request, r: Rule) {
    forall s :: s in rules && Applies(net, q)(s) ==> Ranks(r.priority, r.id, s.priority, s.id)
  }

  /** A request keeps its class, else takes that of the top applying classification rule, else the default. */
  lemma ClassIsTopRule(net: Net, rules: seq<ClassRule>, q: Request)
    ensures q.trafficClass != "" ==> ClassOf(net, rules, q) == q.trafficClass
    ensures q.trafficClass == "" && (forall r :: r in rules ==> !ClassApplies(net, q)(r)) ==>
              ClassOf(net, rules, q) == "default"
    ensures q.trafficClass == "" && (exists r :: r in rules && ClassApplies(net, q)(r)) ==>
              exists r ::
                r in rules && ClassApplies(net, q)(r) && TopClass(net, rules, q, r)
                && ClassOf(net, rules, q) == r.trafficClass
  {
    hide ClassApplies, StrLess;
    StrOrder();
    ClassBeforeIsAnOrder();
    BestSatIsLeast(rules, ClassBefore, ClassApplies(net, q));
    var best := BestSat(rules, ClassBefore, ClassApplies(net, q));
    if best.Some? { assert TopClass(net, rules, q, best.value); }
  }

  ghost predicate TopClass(net: Net, rules: seq<ClassRule>, q: Request, r: ClassRule) {
    forall s :: s in rules && ClassApplies(net, q)(s) ==> Ranks(r.priority, r.id, s.priority, s.id)
  }

  // ---- single rules and merged bundles ----

  /** One rule with one condition decides exactly the requests of its tenant that meet the condition. */
  lemma SingleConditionDecides(net: Net, r: Rule, q: Request)
    requires q.tenantID == r.tenantID
    ensures r.domainSuffix != "" && r.ipCIDR == "" && r.asn == 0 && r.trafficClass == "" ==>
              (Decide(net, [r], q).matched <==> DomainHolds(net, r.domainSuffix, q))
    ensures r.domainSuffix == "" && r.ipCIDR != "" && r.asn == 0 && r.trafficClass == "" ==>
              (Decide(net, [r], q).matched <==> AddressHolds(net, r.ipCIDR, q))
    ensures r.domainSuffix == "" && r.ipCIDR == "" && r.asn != 0 && r.trafficClass == "" ==>
              (Decide(net, [r], q).matched <==> q.asn == r.asn)
    ensures r.domainSuffix == "" && r.ipCIDR == "" && r.asn == 0 && r.trafficClass != "" ==>
              (Decide(net, [r], q).matched <==> q.trafficClass == r.trafficClass)
  {
    hide Decide, Applies, DomainHolds, AddressHolds;
    AppliesIff(net, r, q);
    DecisionIsTopRule(net, [r], q);
    assert forall s :: s in [r] <==> s == r;
  }

  /** The label boundary counts: a name that merely ends in the same letters is another domain. */
  lemma LabelBoundary(net: Net, r: Rule, q: Request)
    requires Normalised(net, r.domainSuffix, "example.com") && Normalised(net, q.domain, "evilexample.com")
             && r.domainSuffix != ""
    ensures !Applies(net, q)(r)
  {
    hide Applies, DomainMatches, Under;
    AppliesIff(net, r, q);
    DomainHoldsIff(net, r.domainSuffix, q);
    DomainMatchesIff(net, q.domain, r.domainSuffix, "evilexample.com", "example.com");
    UnderIff("evilexample.com", "example.com");
    var d, s := "evilexample.com", ".example.com";
    assert s == "." + "example.com";
    assert |d| == 15 && |s| == 12 && d[3] == 'l' && s[0] == '.';
    assert d[3..][0] == d[3];
  }

  /** An indexed bundle holds, under each id that occurs, the last rule with that id. */
  lemma {:induction false} IndexIsLast(rules: seq<Rule>, id: string)
    ensures id in Index(rules) <==> exists i :: 0 <= i < |rules| && rules[i].id == id
    ensures forall i :: 0 <= i < |rules| && rules[i].id == id && (forall j :: i < j < |rules| ==> rules[j].id != id) ==>
              id in Index(rules) && Index(rules)[id] == rules[i]
  {
    if rules != [] {
      var init, last := rules[..|rules| - 1], rules[|rules| - 1];
      IndexIsLast(init, id);
      if last.id != id && id in Index(rules) {
        var i :| 0 <= i < |init| && init[i].id == id;
        assert rules[i].id == id;
      }
      forall i | 0 <= i < |rules| && rules[i].id == id && (forall j :: i < j < |rules| ==> rules[j].id != id)
        ensures id in Index(rules) && Index(rules)[id] == rules[i]
      {
        if i < |init| {
          assert last.id != id && init[i].id == id;
          assert forall j :: i < j < |init| ==> init[j] == rules[j];
        }
      }
    }
  }
}
