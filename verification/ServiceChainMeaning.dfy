/** What a compiled plan does to traffic: the rendered nftables chain and ip commands are run
    on a small machine and compared with the profile read as "first matching route wins". */
module ServiceChainMeaning {
  import opened Text
  import opened Network
  import opened PopProfile
  import opened ServiceChain

  // ---- traffic and conntrack ----

  datatype CtState = New | Established | Related | Invalid | Untracked

  datatype Packet = Packet(iif: string, family: Family, src: nat, dst: nat, proto: Protocol, dport: Port,
                           state: CtState)

  function Source(p: Packet): Addr { Addr(p.family, p.src) }
  function Destination(p: Packet): Addr { Addr(p.family, p.dst) }

  /** Conntrack has an entry for the packet. */
  predicate Tracked(p: Packet) { p.state != Invalid && p.state != Untracked }

  /** `iifname` matches a name, or every name with a prefix when the pattern ends in `*`. */
  predicate OnInterface(pattern: string, p: Packet) {
    if pattern != "" && pattern[|pattern| - 1] == '*' then pattern[..|pattern| - 1] <= p.iif else p.iif == pattern
  }

  /** The packet mark and the mark of the packet's connection. */
  datatype Marks = Marks(meta: int, ct: int)

  // ---- the profile's own meaning ----

  predicate InCidr(net: Net, text: string, a: Addr) {
    text == "" || (net.parseCIDR(text).Some? && Contains(net.parseCIDR(text).value, a))
  }

  predicate SelectorMatches(net: Net, s: RouteSelector, p: Packet) {
    && InCidr(net, net.trim(s.sourceCIDR), Source(p))
    && InCidr(net, net.trim(s.destinationCIDR), Destination(p))
    && (s.protocol.Any? || p.proto == s.protocol)
    && (s.ports.Some? ==> s.ports.value.start <= p.dport <= s.ports.value.end)
  }

  /** The first route, in profile order, whose selector matches. */
  function FirstMatch(net: Net, selectors: seq<RouteSelector>, p: Packet): (r: Option<nat>)
    ensures r.Some? ==> r.value < |selectors| && SelectorMatches(net, selectors[r.value], p)
    ensures r.Some? ==> forall i :: 0 <= i < r.value ==> !SelectorMatches(net, selectors[i], p)
    ensures r.None? ==> forall i :: 0 <= i < |selectors| ==> !SelectorMatches(net, selectors[i], p)
  {
    if selectors == [] then None
    else if SelectorMatches(net, selectors[0], p) then Some(0)
    else
      match FirstMatch(net, selectors[1..], p)
      case None => None
      case Some(i) => Some(i + 1)
  }

  // ---- the nftables machine ----

  datatype Match =
    | CtEstablishedOrRelated
    | Iifname(name: string)
    | CtMarkIs(mark: int)
    | Saddr(family: Family, cidr: string)
    | Daddr(family: Family, cidr: string)
    | L4Proto(proto: Protocol)
    | Dport(proto: Protocol, start: Port, end: Port)

  datatype Statement = MetaMarkFromCt | MetaMarkSet(mark: int) | CtMarkSet(mark: int)

  datatype NftRule = NftRule(matches: seq<Match>, statements: seq<Statement>)

  predicate Holds(net: Net, m: Match, p: Packet, marks: Marks) {
    match m
    case CtEstablishedOrRelated => p.state == Established || p.state == Related
    case Iifname(name) => OnInterface(name, p)
    case CtMarkIs(mark) => Tracked(p) && marks.ct == mark
    case Saddr(f, cidr) => p.family == f && InCidr(net, cidr, Source(p))
    case Daddr(f, cidr) => p.family == f && InCidr(net, cidr, Destination(p))
    case L4Proto(proto) => p.proto == proto
    case Dport(proto, start, end) => p.proto == proto && start <= p.dport <= end
  }

  function Execute(s: Statement, marks: Marks): Marks {
    match s
    case MetaMarkFromCt => marks.(meta := marks.ct)
    case MetaMarkSet(m) => marks.(meta := m)
    case CtMarkSet(m) => marks.(ct := m)
  }

  function ExecuteAll(ss: seq<Statement>, marks: Marks): Marks {
    if ss == [] then marks else ExecuteAll(ss[1..], Execute(ss[0], marks))
  }

  /** A rule's statements run when every match before them holds. */
  function RunRule(net: Net, r: NftRule, p: Packet, marks: Marks): Marks {
    if forall i :: 0 <= i < |r.matches| ==> Holds(net, r.matches[i], p, marks)
    then ExecuteAll(r.statements, marks) else marks
  }

  function RunChain(net: Net, rules: seq<NftRule>, p: Packet, marks: Marks): Marks
    decreases |rules|
  {
    if rules == [] then marks else RunChain(net, rules[1..], p, RunRule(net, rules[0], p, marks))
  }

  // ---- rendering ----

  function RestoreRule(): NftRule { NftRule([CtEstablishedOrRelated], [MetaMarkFromCt]) }

  function AddressMatches(net: Net, r: Route): seq<Match> {
    var src, dst := net.trim(r.selector.sourceCIDR), net.trim(r.selector.destinationCIDR);
    (if src != "" then [Saddr(r.family, src)] else []) + (if dst != "" then [Daddr(r.family, dst)] else [])
  }

  function TransportMatches(s: RouteSelector): seq<Match> {
    if s.ports.Some? then [Dport(s.protocol, s.ports.value.start, s.ports.value.end)]
    else if !s.protocol.Any? then [L4Proto(s.protocol)]
    else []
  }

  function MarkRule(net: Net, ingress: string, r: Route): NftRule {
    NftRule([Iifname(ingress), CtMarkIs(0)] + AddressMatches(net, r) + TransportMatches(r.selector),
            [MetaMarkSet(r.mark), CtMarkSet(r.mark)])
  }

  function MarkRules(net: Net, ingress: string, routes: seq<Route>): seq<NftRule> {
    seq(|routes|, i requires 0 <= i < |routes| => MarkRule(net, ingress, routes[i]))
  }

  /** `ServiceChainPlan.RenderNftables`, as the list of rules it prints. */
  method RenderNftables(net: Net, plan: Plan) returns (r: Outcome<seq<NftRule>>)
    ensures r.Ok? <==> ValidPlan(net, plan)
    ensures r.Ok? ==> r.value == [RestoreRule()] + MarkRules(net, net.trim(plan.ingress), plan.routes)
  {
    hide ValidPlan;
    var valid := ValidatePlan(net, plan);
    if !valid { return Rejected; }
    var rules := [RestoreRule()];
    for k := 0 to |plan.routes|
      invariant rules == [RestoreRule()] + MarkRules(net, net.trim(plan.ingress), plan.routes[..k])
    {
      rules := rules + [MarkRule(net, net.trim(plan.ingress), plan.routes[k])];
    }
    assert plan.routes[..|plan.routes|] == plan.routes;
    return Ok(rules);
  }

  // ---- the chain marks like the profile reads ----

  function Selectors(routes: seq<Route>): seq<RouteSelector> {
    seq(|routes|, i requires 0 <= i < |routes| => routes[i].selector)
  }

  /** The compiled family is the family of every CIDR the selector names. */
  ghost predicate FamilyFits(net: Net, r: Route) {
    SelectorFamily(net, r.selector) == Ok(r.family) && r.mark > 0
  }

  lemma MarkRuleMatches(net: Net, ingress: string, r: Route, p: Packet, marks: Marks)
    requires ColonMeansV6(net) && FamilyFits(net, r)
    ensures RunRule(net, MarkRule(net, ingress, r), p, marks) ==
            if OnInterface(ingress, p) && Tracked(p) && marks.ct == 0 && SelectorMatches(net, r.selector, p)
            then Marks(r.mark, r.mark) else marks
  {
    hide Contains, OnInterface, Tracked;
    var address, transport := AddressMatches(net, r), TransportMatches(r.selector);
    var ms := MarkRule(net, ingress, r).matches;
    assert ms == [Iifname(ingress), CtMarkIs(0)] + address + transport;
    AddressMatchesMean(net, r, p, marks);
    TransportMatchesMean(net, r.selector, p, marks);
    assert AllHold(net, ms, p, marks) <==>
           AllHold(net, [Iifname(ingress), CtMarkIs(0)], p, marks) && AllHold(net, address, p, marks)
           && AllHold(net, transport, p, marks) by {
      AllHoldAppend(net, [Iifname(ingress), CtMarkIs(0)] + address, transport, p, marks);
      AllHoldAppend(net, [Iifname(ingress), CtMarkIs(0)], address, p, marks);
    }
    assert AllHold(net, [Iifname(ingress), CtMarkIs(0)], p, marks) <==>
           OnInterface(ingress, p) && Tracked(p) && marks.ct == 0 by {
      var two := [Iifname(ingress), CtMarkIs(0)];
      assert Holds(net, two[0], p, marks) <==> OnInterface(ingress, p);
      assert Holds(net, two[1], p, marks) <==> Tracked(p) && marks.ct == 0;
    }
    var ss := [MetaMarkSet(r.mark), CtMarkSet(r.mark)];
    assert ss[1..] == [CtMarkSet(r.mark)] && ss[1..][1..] == [];
    assert ExecuteAll(ss[1..], Marks(r.mark, marks.ct)) == ExecuteAll([], Marks(r.mark, r.mark));
    assert ExecuteAll(ss, marks) == Marks(r.mark, r.mark);
  }

  ghost predicate AllHold(net: Net, ms: seq<Match>, p: Packet, marks: Marks) {
    forall i :: 0 <= i < |ms| ==> Holds(net, ms[i], p, marks)
  }

  lemma AllHoldAppend(net: Net, a: seq<Match>, b: seq<Match>, p: Packet, marks: Marks)
    ensures AllHold(net, a + b, p, marks) <==> AllHold(net, a, p, marks) && AllHold(net, b, p, marks)
  {
    hide Holds;
    if AllHold(net, a + b, p, marks) {
      forall i | 0 <= i < |a| ensures Holds(net, a[i], p, marks) { assert (a + b)[i] == a[i]; }
      forall i | 0 <= i < |b| ensures Holds(net, b[i], p, marks) { assert (a + b)[|a| + i] == b[i]; }
    }
  }

  lemma AddressMatchesMean(net: Net, r: Route, p: Packet, marks: Marks)
    requires ColonMeansV6(net) && FamilyFits(net, r)
    ensures AllHold(net, AddressMatches(net, r), p, marks) <==>
            InCidr(net, net.trim(r.selector.sourceCIDR), Source(p))
            && InCidr(net, net.trim(r.selector.destinationCIDR), Destination(p))
  {
    hide ValidSelector;
    var src, dst := net.trim(r.selector.sourceCIDR), net.trim(r.selector.destinationCIDR);
    var ms := AddressMatches(net, r);
    CidrFamily(net, src, Source(p));
    CidrFamily(net, dst, Destination(p));
    assert src != "" ==> ms[0] == Saddr(r.family, src) && TextFamily(src) == r.family;
    assert dst != "" ==> ms[|ms| - 1] == Daddr(r.family, dst) && TextFamily(dst) == r.family;
  }

  lemma CidrFamily(net: Net, text: string, a: Addr)
    requires ColonMeansV6(net)
    ensures text != "" && InCidr(net, text, a) ==> a.family == TextFamily(text)
  {
  }

  lemma TransportMatchesMean(net: Net, s: RouteSelector, p: Packet, marks: Marks)
    requires ValidSelector(net, s)
    ensures AllHold(net, TransportMatches(s), p, marks) <==>
            (s.protocol.Any? || p.proto == s.protocol)
            && (s.ports.Some? ==> s.ports.value.start <= p.dport <= s.ports.value.end)
  {
    var ms := TransportMatches(s);
    assert |ms| == 1 ==> (AllHold(net, ms, p, marks) <==> Holds(net, ms[0], p, marks));
  }

  /** First match, by induction on the rules still to run: a rule that fires sets the conntrack
      mark, which switches every later rule off. */
  lemma {:induction false} MarkRulesFirstMatch(net: Net, ingress: string, routes: seq<Route>, p: Packet, marks: Marks)
    requires ColonMeansV6(net) && forall i :: 0 <= i < |routes| ==> FamilyFits(net, routes[i])
    ensures RunChain(net, MarkRules(net, ingress, routes), p, marks) ==
            if OnInterface(ingress, p) && Tracked(p) && marks.ct == 0 && FirstMatch(net, Selectors(routes), p).Some?
            then var m := routes[FirstMatch(net, Selectors(routes), p).value].mark; Marks(m, m)
            else marks
    decreases |routes|
  {
    hide SelectorMatches, FamilyFits, MarkRule, RunRule, OnInterface, Tracked;
    if routes != [] {
      var rules, rest := MarkRules(net, ingress, routes), routes[1..];
      assert rules[0] == MarkRule(net, ingress, routes[0]) && rules[1..] == MarkRules(net, ingress, rest);
      assert Selectors(routes)[0] == routes[0].selector && Selectors(routes)[1..] == Selectors(rest);
      assert routes[0].mark > 0 by { MarkPositive(net, routes[0]); }
      MarkRuleMatches(net, ingress, routes[0], p, marks);
      MarkRulesFirstMatch(net, ingress, rest, p, RunRule(net, rules[0], p, marks));
    }
  }

  lemma MarkPositive(net: Net, r: Route)
    requires FamilyFits(net, r)
    ensures r.mark > 0
  {
  }

  /** The rendered chain. */
  function Rendered(net: Net, plan: Plan): seq<NftRule> {
    [RestoreRule()] + MarkRules(net, net.trim(plan.ingress), plan.routes)
  }

  /** The whole effect of the chain on any packet, in closed form. */
  function ChainEffect(net: Net, plan: Plan, p: Packet, marks: Marks): Marks {
    var found := FirstMatch(net, Selectors(plan.routes), p);
    if OnInterface(net.trim(plan.ingress), p) && Tracked(p) && marks.ct == 0 && found.Some?
    then var m := plan.routes[found.value].mark; Marks(m, m)
    else if p.state == Established || p.state == Related then Marks(marks.ct, marks.ct)
    else marks
  }

  lemma ChainMeansEffect(net: Net, plan: Plan, p: Packet, marks: Marks)
    requires ColonMeansV6(net) && ValidPlan(net, plan)
    ensures RunChain(net, Rendered(net, plan), p, marks) == ChainEffect(net, plan, p, marks)
  {
    var ingress := net.trim(plan.ingress);
    forall i | 0 <= i < |plan.routes| ensures FamilyFits(net, plan.routes[i]) {
      assert ValidRoute(net, plan.routes[i], net.trim(plan.localPOPID));
    }
    hide FamilyFits, ValidPlan, SelectorMatches, MarkRules, OnInterface;
    var chain := Rendered(net, plan);
    assert chain[0] == RestoreRule() && chain[1..] == MarkRules(net, ingress, plan.routes);
    var restored := if p.state == Established || p.state == Related then Marks(marks.ct, marks.ct) else marks;
    assert RunRule(net, RestoreRule(), p, marks) == restored by {
      var rule := RestoreRule();
      assert rule.matches == [CtEstablishedOrRelated] && rule.matches[0] == CtEstablishedOrRelated;
      assert Holds(net, rule.matches[0], p, marks) <==> p.state == Established || p.state == Related;
      assert rule.statements[1..] == [];
      assert ExecuteAll(rule.statements, marks) == ExecuteAll([], Marks(marks.ct, marks.ct));
    }
    MarkRulesFirstMatch(net, ingress, plan.routes, p, restored);
  }
}
