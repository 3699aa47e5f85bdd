/** Which profiles, targets and options compile, said field by field, and how the plan is numbered. */
module ServiceChainAcceptance {
  import opened Text
  import opened Network
  import opened PopProfile
  import opened Gateway
  import opened ServiceChain

  /** The text parses to a prefix of the family. */
  ghost predicate PrefixOf(net: Net, text: string, f: Family) {
    net.parseCIDR(text).Some? && net.parseCIDR(text).value.family == f
  }

  /** The selector matches by address, protocol and port only, within one family. */
  ghost predicate SelectsWithin(net: Net, s: RouteSelector, f: Family) {
    var src, dst := net.trim(s.sourceCIDR), net.trim(s.destinationCIDR);
    && net.trim(s.domainSuffix) == "" && net.trim(s.trafficClass) == ""
    && (src != "" || dst != "")
    && (src != "" ==> PrefixOf(net, src, f) && net.parseCIDR(s.sourceCIDR).Some?)
    && (dst != "" ==> PrefixOf(net, dst, f) && net.parseCIDR(s.destinationCIDR).Some?)
    && (s.protocol == Any || s.protocol == Tcp || s.protocol == Udp)
    && (s.ports.Some? ==> s.protocol != Any && 1 <= s.ports.value.start <= s.ports.value.end)
  }

  /** The compiler finds the family of exactly these selectors. */
  lemma SelectorFamilyIff(net: Net, s: RouteSelector, f: Family)
    requires ColonMeansV6(net)
    ensures SelectorFamily(net, s) == Ok(f) <==> SelectsWithin(net, s, f)
  {
    var src, dst := net.trim(s.sourceCIDR), net.trim(s.destinationCIDR);
    assert net.parseCIDR(src).Some? ==> (net.parseCIDR(src).value.family == V6 <==> ':' in src);
    assert net.parseCIDR(dst).Some? ==> (net.parseCIDR(dst).value.family == V6 <==> ':' in dst);
  }

  /** A selector is valid when every part it gives is well-formed and it gives some part. */
  lemma ValidSelectorIff(net: Net, s: RouteSelector)
    ensures ValidSelector(net, s) <==>
            && (forall text :: text in [s.sourceCIDR, s.destinationCIDR] && net.trim(text) != "" ==>
                 net.parseCIDR(text).Some?)
            && (net.trim(s.domainSuffix) == "" || net.domainOk(s.domainSuffix))
            && (s.protocol == Any || s.protocol == Tcp || s.protocol == Udp)
            && (s.ports.None? || (s.protocol != Any && 1 <= s.ports.value.start <= s.ports.value.end))
            && !(s.protocol == Any && s.ports.None?
                 && forall text :: text in [s.sourceCIDR, s.destinationCIDR, s.domainSuffix, s.trafficClass] ==>
                      net.trim(text) == "")
  {
    var two, four := [s.sourceCIDR, s.destinationCIDR],
                       [s.sourceCIDR, s.destinationCIDR, s.domainSuffix, s.trafficClass];
    assert two[0] in two && two[1] in two;
    assert four[0] in four && four[1] in four && four[2] in four && four[3] in four;
  }

  /** Non-blank names, no two alike once trimmed. */
  ghost predicate NamedOnce(net: Net, names: seq<string>) {
    && (forall i :: 0 <= i < |names| ==> net.trim(names[i]) != "")
    && (forall i, j :: 0 <= i < j < |names| ==> net.trim(names[i]) != net.trim(names[j]))
  }

  /** An interface name: some text, without blanks or quotes. */
  predicate InterfaceName(s: string) {
    |s| > 0 && forall i :: 0 <= i < |s| ==> s[i] !in " \t\r\n\"'"
  }

  ghost predicate GatewayText(net: Net, s: string) { s == "" || net.parseIP(s).Some? }

  ghost predicate TargetFits(net: Net, t: Target) {
    && net.trim(t.popID) != "" && GatewayText(net, net.trim(t.gateway)) && InterfaceName(net.trim(t.iface))
    && t.table >= 1 && t.table != 253 && t.table != 254 && t.table != 255
  }

  ghost predicate ExistingFits(net: Net, e: RouteRule) {
    && e.name != "" && e.iface != "" && e.mark >= 1 && e.table >= 1
    && (e.matchCIDR == "" || net.parseCIDR(e.matchCIDR).Some?) && net.parseCIDR(e.destCIDR).Some?
    && GatewayText(net, e.gateway)
  }

  function MarkAt(o: Options, i: nat): int { (if o.markBase == 0 then 4000 else o.markBase) + i }

  function PreferenceAt(o: Options, i: nat): int { (if o.preferenceBase == 0 then 14000 else o.preferenceBase) + i }

  ghost predicate OptionsFit(net: Net, o: Options) {
    && net.trim(o.localPOPID) != "" && InterfaceName(net.trim(o.ingress)) && o.markBase >= 0 && o.preferenceBase >= 0
    && forall e :: e in o.existing ==> ExistingFits(net, e)
  }

  ghost predicate TargetsFit(net: Net, targets: seq<Target>) {
    && (forall i :: 0 <= i < |targets| ==> TargetFits(net, targets[i]))
    && (forall i, j :: 0 <= i < j < |targets| ==>
          net.trim(targets[i].popID) != net.trim(targets[j].popID) && targets[i].table != targets[j].table)
  }

  /** The target is the one of the route's first hop, can carry the family, and takes nothing in use. */
  ghost predicate TargetTakes(net: Net, o: Options, t: Target, hop: string, f: Family, i: nat) {
    && net.trim(t.popID) == net.trim(hop)
    && (net.trim(t.gateway) != "" ==>
         net.parseIP(net.trim(t.gateway)).Some? && (':' in net.trim(t.gateway) <==> f == V6))
    && forall e :: e in o.existing ==>
         e.mark != MarkAt(o, i) && e.preference != PreferenceAt(o, i) && e.table != t.table
  }

  ghost predicate RouteFits(net: Net, o: Options, targets: seq<Target>, p: RoutePolicy, i: nat) {
    && MarkAt(o, i) <= MAX_INT && PreferenceAt(o, i) <= MAX_INT
    && p.chain.hops != [] && net.trim(p.chain.hops[0]) != net.trim(o.localPOPID)
    && exists f, t :: SelectsWithin(net, p.selector, f) && t in targets && TargetTakes(net, o, t, p.chain.hops[0], f, i)
  }

  ghost predicate PolicyFits(net: Net, p: RoutePolicy) {
    && net.trim(p.id) != "" && net.trim(p.chain.id) != "" && !p.directFallback
    && p.chain.hops != [] && NamedOnce(net, p.chain.hops) && NamedOnce(net, p.chain.returnHops)
  }

  ghost predicate RouteNamesFit(net: Net, p: Profile) {
    forall i, j :: 0 <= i < j < |p.routes| ==> net.trim(p.routes[i].id) != net.trim(p.routes[j].id)
  }

  /** The inputs the compiler takes. */
  ghost predicate CompilerTakes(net: Net, p: Profile, targets: seq<Target>, o: Options) {
    && net.trim(p.id) != "" && p.routes != [] && RouteNamesFit(net, p)
    && OptionsFit(net, o) && net.trim(p.principalID) == net.trim(o.localPOPID) && TargetsFit(net, targets)
    && forall i :: 0 <= i < |p.routes| ==> PolicyFits(net, p.routes[i]) && RouteFits(net, o, targets, p.routes[i], i)
  }

  lemma InterfaceNameIff(s: string)
    ensures ValidInterface(s) <==> InterfaceName(s)
  {
    if InterfaceName(s) {
      forall c | c in s ensures c !in {' ', '\t', '\r', '\n', '\"', '\''} {
        var i :| 0 <= i < |s| && s[i] == c;
        assert c !in " \t\r\n\"'";
        Blanks(c);
      }
    }
    if ValidInterface(s) {
      forall i | 0 <= i < |s| ensures s[i] !in " \t\r\n\"'" {
        assert s[i] in s;
        Blanks(s[i]);
      }
    }
  }

  lemma Blanks(c: char)
    ensures c in " \t\r\n\"'" <==> c in {' ', '\t', '\r', '\n', '\"', '\''}
  {
    var text := " \t\r\n\"'";
    assert text[0] == ' ' && text[1] == '\t' && text[2] == '\r' && text[3] == '\n'
           && text[4] == '\"' && text[5] == '\'';
    assert |text| == 6;
  }

  lemma OptionsIff(net: Net, o: Options)
    ensures NormalizeOptions(net, o).Ok? <==> OptionsFit(net, o)
    ensures NormalizeOptions(net, o).Ok? ==>
              var n := NormalizeOptions(net, o).value;
              && n.localPOPID == net.trim(o.localPOPID) && n.ingress == net.trim(o.ingress) && n.existing == o.existing
              && n.markBase == MarkAt(o, 0) && n.preferenceBase == PreferenceAt(o, 0)
  {
    hide ValidInterface, InterfaceName, ValidRouteRule, ExistingFits;
    InterfaceNameIff(net.trim(o.ingress));
    forall e ensures ValidRouteRule(net, e) <==> ExistingFits(net, e) { ExistingIff(net, e); }
    if forall e :: e in o.existing ==> ExistingFits(net, e) {
      assert forall i :: 0 <= i < |o.existing| ==> o.existing[i] in o.existing;
    }
    if forall i :: 0 <= i < |o.existing| ==> ValidRouteRule(net, o.existing[i]) {
      assert forall e :: e in o.existing ==> ExistingFits(net, e);
    }
  }

  lemma ExistingIff(net: Net, e: RouteRule)
    ensures ValidRouteRule(net, e) <==> ExistingFits(net, e)
  {
  }

  lemma TargetIff(net: Net, t: Target)
    ensures UsableTarget(net, TrimTarget(net, t)) <==> TargetFits(net, t)
  {
    hide ValidInterface, InterfaceName;
    InterfaceNameIff(net.trim(t.iface));
  }

  lemma TargetsIff(net: Net, targets: seq<Target>)
    ensures ValidTargets(net, targets) <==> TargetsFit(net, targets)
  {
    hide UsableTarget, TargetFits;
    forall i | 0 <= i < |targets| ensures UsableTarget(net, TrimTarget(net, targets[i])) <==>
                 TargetFits(net, targets[i]) {
      TargetIff(net, targets[i]);
    }
  }

  lemma ChosenIff(net: Net, options: Options, t: Target, p: RoutePolicy, f: Family, i: nat)
    requires NormalizeOptions(net, options).Ok? && p.chain.hops != [] && SelectorFamily(net, p.selector) == Ok(f)
    ensures Chosen(net, NormalizeOptions(net, options).value, t, p, i) <==>
              TargetTakes(net, options, t, p.chain.hops[0], f, i)
  {
    hide SelectorFamily, NormalizeOptions;
    OptionsIff(net, options);
    var n := NormalizeOptions(net, options).value;
    assert Unreserved(options.existing, n.markBase + i, n.preferenceBase + i, t.table) <==>
           forall e :: e in options.existing ==>
             e.mark != MarkAt(options, i) && e.preference != PreferenceAt(options, i) && e.table != t.table;
  }

  lemma RouteIff(net: Net, options: Options, targets: seq<Target>, p: RoutePolicy, i: nat)
    requires ColonMeansV6(net) && NormalizeOptions(net, options).Ok?
    ensures Routable(net, NormalizeOptions(net, options).value, targets, p, i) <==>
              RouteFits(net, options, targets, p, i)
  {
    hide NormalizeOptions, SelectorFamily, SelectsWithin, Chosen, TargetTakes, ColonMeansV6;
    OptionsIff(net, options);
    var n := NormalizeOptions(net, options).value;
    forall f ensures SelectorFamily(net, p.selector) == Ok(f) <==> SelectsWithin(net, p.selector, f) {
      SelectorFamilyIff(net, p.selector, f);
    }
    if p.chain.hops != [] && SelectorFamily(net, p.selector).Ok? {
      var f := SelectorFamily(net, p.selector).value;
      forall t ensures Chosen(net, n, t, p, i) <==> TargetTakes(net, options, t, p.chain.hops[0], f, i) {
        ChosenIff(net, options, t, p, f, i);
      }
    }
  }

  lemma PolicyIff(net: Net, p: RoutePolicy)
    ensures ValidPolicy(net, p) <==> PolicyFits(net, p) && ValidSelector(net, p.selector)
  {
    hide ValidSelector;
  }

  lemma FitsSelects(net: Net, options: Options, targets: seq<Target>, p: RoutePolicy, i: nat)
    requires ColonMeansV6(net) && RouteFits(net, options, targets, p, i)
    ensures ValidSelector(net, p.selector)
  {
    hide TargetTakes, SelectsWithin, ValidSelector, ColonMeansV6;
    var f, t :| SelectsWithin(net, p.selector, f) && t in targets
    && TargetTakes(net, options, t, p.chain.hops[0], f, i);
    SelectorFamilyIff(net, p.selector, f);
  }

  /** Compilation succeeds exactly for these inputs. */
  lemma CompileSucceedsIff(net: Net, p: Profile, targets: seq<Target>, options: Options)
    requires ColonMeansV6(net)
    ensures Compilable(net, p, targets, options) <==> CompilerTakes(net, p, targets, options)
  {
    hide NormalizeOptions, OptionsFit, ValidTargets, TargetsFit, Routable, RouteFits, ValidPolicy, PolicyFits;
    hide ValidSelector;
    hide ColonMeansV6;
    OptionsIff(net, options);
    TargetsIff(net, targets);
    if NormalizeOptions(net, options).Ok? {
      var n := NormalizeOptions(net, options).value;
      forall i | 0 <= i < |p.routes|
        ensures ValidPolicy(net, p.routes[i]) && Routable(net, n, targets, p.routes[i], i) <==>
                PolicyFits(net, p.routes[i]) && RouteFits(net, options, targets, p.routes[i], i)
      {
        PolicyIff(net, p.routes[i]);
        RouteIff(net, options, targets, p.routes[i], i);
        if RouteFits(net, options, targets, p.routes[i], i) { FitsSelects(net, options, targets, p.routes[i], i); }
      }
      if CompilerTakes(net, p, targets, options) {
        assert net.trim(p.principalID) != "" by { OptionsNamed(net, options); }
        forall i | 0 <= i < |p.routes| ensures ValidPolicy(net, p.routes[i])
                   && Routable(net, n, targets, p.routes[i], i) {
          assert PolicyFits(net, p.routes[i]) && RouteFits(net, options, targets, p.routes[i], i);
        }
      }
      if Compilable(net, p, targets, options) {
        forall i | 0 <= i < |p.routes|
          ensures PolicyFits(net, p.routes[i]) && RouteFits(net, options, targets, p.routes[i], i)
        {
          assert ValidPolicy(net, p.routes[i]) && Routable(net, n, targets, p.routes[i], i);
        }
      }
    }
  }

  lemma OptionsNamed(net: Net, o: Options)
    requires OptionsFit(net, o)
    ensures net.trim(o.localPOPID) != ""
  {
  }

  /** The compiled plan carries the profile's own names and is numbered from the two bases. */
  lemma PlanIsNumbered(net: Net, p: Profile, targets: seq<Target>, options: Options, plan: Plan, i: nat)
    requires Compilable(net, p, targets, options) && i < |p.routes|
    requires CompiledPlan(net, NormalizeOptions(net, options).value, p, targets, plan)
    ensures |plan.routes| == |p.routes| && plan.localPOPID == net.trim(options.localPOPID)
    ensures var r, from := plan.routes[i], p.routes[i];
            && r.mark == MarkAt(options, i) && r.preference == PreferenceAt(options, i) && r.selector == from.selector
            && r.routeID == net.trim(from.id) && r.chainID == net.trim(from.chain.id)
            && from.chain.hops != [] && r.nextPOPID == net.trim(from.chain.hops[0])
               && r.returnHops == from.chain.returnHops
  {
    hide NormalizeOptions, SelectorFamily, Chosen, Routable, ValidTargets;
    OptionsIff(net, options);
    assert CompiledTo(net, NormalizeOptions(net, options).value, targets, p.routes[i], i, plan.routes[i]);
  }
}
