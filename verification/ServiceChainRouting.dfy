/** From profile to next hop: the ip commands of a plan, run on a kernel, and the connections
    that flow through it. */
module ServiceChainRouting {
  import opened Text
  import opened Network
  import opened PopProfile
  import opened ServiceChain
  import opened Gateway
  import opened ServiceChainAcceptance
  import opened ServiceChainMeaning

  // ---- rendering the ip commands ----

  function RuleOf(r: Route): RuleKey { RuleKey(r.family, r.mark, r.target.table, r.preference) }

  function DefaultRoute(r: Route): RouteKey { RouteKey(r.family, DefaultCidr(r.family), r.target.table) }

  function HopOf(net: Net, r: Route): Hop { Hop(net.trim(r.target.gateway), net.trim(r.target.iface)) }

  ghost predicate TableUsedBefore(routes: seq<Route>, i: nat)
    requires i < |routes|
  {
    exists j :: 0 <= j < i && KeyOf(routes[j]) == KeyOf(routes[i])
  }

  /** The commands of one route: the default route of its table unless an earlier route already
      installed it, then the policy rule. */
  ghost function Block(net: Net, routes: seq<Route>, i: nat): seq<IpCommand>
    requires i < |routes|
  {
    (if TableUsedBefore(routes, i) then [] else [RouteReplace(DefaultRoute(routes[i]), HopOf(net, routes[i]))])
    + [RuleAdd(RuleOf(routes[i]))]
  }

  ghost function Commands(net: Net, routes: seq<Route>, k: nat): seq<IpCommand>
    requires k <= |routes|
  {
    if k == 0 then [] else Commands(net, routes, k - 1) + Block(net, routes, k - 1)
  }

  lemma UsedBefore(routes: seq<Route>, k: nat, installed: set<TableKey>)
    requires k < |routes| && forall i :: 0 <= i < k ==> KeyOf(routes[i]) in installed
    requires forall key :: key in installed ==> exists i :: 0 <= i < k && KeyOf(routes[i]) == key
    ensures KeyOf(routes[k]) in installed <==> TableUsedBefore(routes, k)
  {
    hide KeyOf;
  }

  /** `ServiceChainPlan.RenderIPRouteCommands`. */
  method RenderIPRouteCommands(net: Net, plan: Plan) returns (r: Outcome<seq<IpCommand>>)
    ensures r.Ok? <==> ValidPlan(net, plan)
    ensures r.Ok? ==> r.value == Commands(net, plan.routes, |plan.routes|)
  {
    hide ValidPlan, RuleOf, DefaultRoute, HopOf, KeyOf, TableUsedBefore;
    var valid := ValidatePlan(net, plan);
    if !valid { return Rejected; }
    var installed: set<TableKey> := {};
    var commands: seq<IpCommand> := [];
    for k := 0 to |plan.routes|
      invariant commands == Commands(net, plan.routes, k)
      invariant forall i :: 0 <= i < k ==> KeyOf(plan.routes[i]) in installed
      invariant forall key :: key in installed ==> exists i :: 0 <= i < k && KeyOf(plan.routes[i]) == key
    {
      var route := plan.routes[k];
      assert KeyOf(route) in installed <==> TableUsedBefore(plan.routes, k) by {
        UsedBefore(plan.routes, k, installed);
      }
      if KeyOf(route) !in installed {
        commands := commands + ([RouteReplace(DefaultRoute(route), HopOf(net, route))] + [RuleAdd(RuleOf(route))]);
      } else {
        commands := commands + ([] + [RuleAdd(RuleOf(route))]);
      }
      installed := installed + {KeyOf(route)};
    }
    return Ok(commands);
  }

  // ---- what the commands leave in the kernel ----

  /** The policy rules after the first `i` routes. */
  ghost predicate RulesAdded(before: set<RuleKey>, routes: seq<Route>, i: nat, after: set<RuleKey>)
    requires i <= |routes|
  {
    forall r :: r in after <==> r in before || exists j :: 0 <= j < i && r == RuleOf(routes[j])
  }

  /** The routing tables after the first `i` routes: their tables hold their default routes and
      nothing else changed. */
  ghost predicate RoutesPut(net: Net, before: map<RouteKey, Hop>, routes: seq<Route>, i: nat, after: map<RouteKey, Hop>)
    requires i <= |routes|
  {
    && (forall j :: 0 <= j < i ==>
         DefaultRoute(routes[j]) in after && after[DefaultRoute(routes[j])] == HopOf(net, routes[j]))
    && (forall key :: key in after ==>
          (exists j :: 0 <= j < i && key == DefaultRoute(routes[j])) || (key in before && after[key] == before[key]))
  }

  ghost predicate InstalledUpTo(net: Net, k0: Kernel, routes: seq<Route>, i: nat, k: Kernel)
    requires i <= |routes|
  {
    RulesAdded(k0.rules, routes, i, k.rules) && RoutesPut(net, k0.routes, routes, i, k.routes)
  }

  lemma AddOneRule(net: Net, before: set<RuleKey>, routes: seq<Route>, i: nat, after: set<RuleKey>)
    requires i < |routes| && RulesAdded(before, routes, i, after) && SeparatedUpTo(net, routes, |routes|)
    requires forall r :: r in before ==> r.mark != routes[i].mark
    ensures RuleOf(routes[i]) !in after && RulesAdded(before, routes, i + 1, after + {RuleOf(routes[i])})
  {
    hide SameTarget;
    assert forall j :: 0 <= j < i ==> Separated(net, routes[j], routes[i]);
  }

  lemma PutOneRoute(net: Net, before: map<RouteKey, Hop>, routes: seq<Route>, i: nat, after: map<RouteKey, Hop>)
    requires i < |routes| && RoutesPut(net, before, routes, i, after) && !TableUsedBefore(routes, i)
    ensures RoutesPut(net, before, routes, i + 1, after[DefaultRoute(routes[i]) := HopOf(net, routes[i])])
  {
    hide HopOf;
    forall j | 0 <= j < i ensures DefaultRoute(routes[j]) != DefaultRoute(routes[i]) {
      assert KeyOf(routes[j]) != KeyOf(routes[i]);
    }
  }

  lemma ReuseRoute(net: Net, before: map<RouteKey, Hop>, routes: seq<Route>, i: nat, after: map<RouteKey, Hop>)
    requires i < |routes| && RoutesPut(net, before, routes, i, after) && TableUsedBefore(routes, i)
    requires SeparatedUpTo(net, routes, |routes|)
    ensures RoutesPut(net, before, routes, i + 1, after)
  {
    hide HopOf, DefaultRoute, Separated, KeyOf;
    var j :| 0 <= j < i && KeyOf(routes[j]) == KeyOf(routes[i]);
    SameTableSameHop(net, routes[j], routes[i]);
  }

  lemma SameTableSameHop(net: Net, a: Route, b: Route)
    requires KeyOf(a) == KeyOf(b) && Separated(net, a, b)
    ensures HopOf(net, a) == HopOf(net, b) && DefaultRoute(a) == DefaultRoute(b)
  {
  }

  lemma InstallOne(net: Net, k0: Kernel, routes: seq<Route>, i: nat, k: Kernel)
    requires i < |routes| && InstalledUpTo(net, k0, routes, i, k) && SeparatedUpTo(net, routes, |routes|)
    requires forall r :: r in k0.rules ==> r.mark != routes[i].mark
    ensures IpRun(k, Block(net, routes, i)).Some?
    ensures InstalledUpTo(net, k0, routes, i + 1, IpRun(k, Block(net, routes, i)).value)
  {
    hide RulesAdded, RoutesPut, SeparatedUpTo, TableUsedBefore, RuleOf, HopOf, DefaultRoute, HostBits;
    var add, put := RuleAdd(RuleOf(routes[i])), RouteReplace(DefaultRoute(routes[i]), HopOf(net, routes[i]));
    AddOneRule(net, k0.rules, routes, i, k.rules);
    if TableUsedBefore(routes, i) {
      ReuseRoute(net, k0.routes, routes, i, k.routes);
      RunOne(k, add, k.(rules := k.rules + {add.rule}));
      assert Block(net, routes, i) == [add];
    } else {
      PutOneRoute(net, k0.routes, routes, i, k.routes);
      var routed := k.(routes := k.routes[put.route := put.hop]);
      DefaultRouteIsTaken(routes[i]);
      RunOne(k, put, routed);
      RunOne(routed, add, routed.(rules := k.rules + {add.rule}));
      IpRunAppend(k, [put], [add]);
      assert Block(net, routes, i) == [put] + [add];
    }
  }

  lemma DefaultRouteIsTaken(r: Route)
    ensures !HostBits(DefaultRoute(r).dest)
  {
    DefaultHasNoHostBits(r.family);
  }

  lemma RunOne(k: Kernel, c: IpCommand, k': Kernel)
    requires IpStep(k, c) == Some(k')
    ensures IpRun(k, [c]) == Some(k')
  {
    assert [c][1..] == [];
  }

  lemma NothingInstalled(net: Net, k0: Kernel, routes: seq<Route>)
    ensures IpRun(k0, []) == Some(k0) && InstalledUpTo(net, k0, routes, 0, k0)
  {
  }

  /** The commands of a valid plan never fail on a kernel whose fwmark rules use other marks. */
  lemma {:induction false} CommandsInstall(net: Net, k0: Kernel, routes: seq<Route>, i: nat)
    requires i <= |routes| && SeparatedUpTo(net, routes, |routes|)
    requires forall r, j :: r in k0.rules && 0 <= j < |routes| ==> r.mark != routes[j].mark
    ensures IpRun(k0, Commands(net, routes, i)).Some?
    ensures InstalledUpTo(net, k0, routes, i, IpRun(k0, Commands(net, routes, i)).value)
  {
    hide SeparatedUpTo, Block, IpRun, InstalledUpTo;
    if i == 0 {
      NothingInstalled(net, k0, routes);
      assert Commands(net, routes, 0) == [];
    } else {
      CommandsInstall(net, k0, routes, i - 1);
      var k := IpRun(k0, Commands(net, routes, i - 1)).value;
      InstallOne(net, k0, routes, i - 1, k);
      IpRunAppend(k0, Commands(net, routes, i - 1), Block(net, routes, i - 1));
    }
  }

  predicate InTable(key: RouteKey, r: Route) { key.family == r.family && key.table == r.target.table }

  /** Before the plan: no fwmark rule uses one of its marks, and its tables hold at most a default route. */
  ghost predicate Prepared(k0: Kernel, routes: seq<Route>) {
    && (forall r, j :: r in k0.rules && 0 <= j < |routes| ==> r.mark != routes[j].mark)
    && (forall key, j :: key in k0.routes && 0 <= j < |routes| && InTable(key, routes[j]) ==>
          key.dest == DefaultCidr(key.family))
  }

  /** The policy rules on the kernel afterwards: the old ones, and per route its family, mark, table and preference. */
  lemma PlanRulesOnKernel(net: Net, k0: Kernel, plan: Plan, r: RuleKey)
    requires ValidPlan(net, plan) && Prepared(k0, plan.routes)
    ensures Applied(net, k0, plan.routes).Some?
    ensures r in Applied(net, k0, plan.routes).value.rules <==>
            r in k0.rules || exists i ::
              0 <= i < |plan.routes| && r == RuleKey(plan.routes[i].family, plan.routes[i].mark,
                                                                               plan.routes[i].target.table,
                                                                                 plan.routes[i].preference)
  {
    hide SeparatedUpTo, ValidRoute, RoutesPut;
    CommandsInstall(net, k0, plan.routes, |plan.routes|);
    var k := Applied(net, k0, plan.routes).value;
    if r in k.rules && r !in k0.rules {
      var i :| 0 <= i < |plan.routes| && r == RuleOf(plan.routes[i]);
    }
    if i :| 0 <= i < |plan.routes| && r == RuleKey(plan.routes[i].family, plan.routes[i].mark,
                                                   plan.routes[i].target.table, plan.routes[i].preference) {
      assert r == RuleOf(plan.routes[i]);
    }
  }

  ghost function Applied(net: Net, k0: Kernel, routes: seq<Route>): Option<Kernel> {
    IpRun(k0, Commands(net, routes, |routes|))
  }

  /** A packet carrying the mark of route `i` leaves through the target of route `i`, and nowhere else. */
  lemma MarkForwards(net: Net, k0: Kernel, routes: seq<Route>, i: nat, dst: Addr)
    requires SeparatedUpTo(net, routes, |routes|) && Prepared(k0, routes)
    requires i < |routes| && dst.family == routes[i].family && dst.value < Pow2(Bits(dst.family))
    ensures Applied(net, k0, routes).Some?
    ensures OnlyVia(Applied(net, k0, routes).value, routes[i].mark, dst, HopOf(net, routes[i]))
  {
    hide SeparatedUpTo, RulesAdded, RoutesPut, HopOf, Pow2, Forwards, Selected;
    CommandsInstall(net, k0, routes, |routes|);
    var k := Applied(net, k0, routes).value;
    OnlyOneRuleSelects(net, k0, routes, k, i, dst);
    TableHoldsDefaultOnly(net, k0, routes, k, i);
    SingleRuleForwards(k, routes[i].mark, dst, RuleOf(routes[i]), HopOf(net, routes[i]));
  }

  lemma OnlyOneRuleSelects(net: Net, k0: Kernel, routes: seq<Route>, k: Kernel, i: nat, dst: Addr)
    requires RulesAdded(k0.rules, routes, |routes|, k.rules) && SeparatedUpTo(net, routes, |routes|)
    requires i < |routes| && dst.family == routes[i].family
    requires forall r, j :: r in k0.rules && 0 <= j < |routes| ==> r.mark != routes[j].mark
    ensures Selected(k, routes[i].mark, dst, RuleOf(routes[i]))
    ensures forall r :: Selected(k, routes[i].mark, dst, r) ==> r == RuleOf(routes[i])
  {
    hide SameTarget;
    forall r | Selected(k, routes[i].mark, dst, r) ensures r == RuleOf(routes[i]) {
      var j :| 0 <= j < |routes| && r == RuleOf(routes[j]);
      if j < i {
        assert Separated(net, routes[j], routes[i]);
      } else if i < j {
        assert Separated(net, routes[i], routes[j]);
      }
    }
  }

  lemma TableHoldsDefaultOnly(net: Net, k0: Kernel, routes: seq<Route>, k: Kernel, i: nat)
    requires RoutesPut(net, k0.routes, routes, |routes|, k.routes) && Prepared(k0, routes) && i < |routes|
    ensures DefaultRoute(routes[i]) in k.routes && k.routes[DefaultRoute(routes[i])] == HopOf(net, routes[i])
    ensures forall key :: key in k.routes && key.family == routes[i].family && key.table == routes[i].target.table ==>
              key.dest == DefaultCidr(routes[i].family)
  {
    hide HopOf;
  }

  // ---- compiler correctness ----

  function PolicySelectors(p: Profile): seq<RouteSelector> {
    seq(|p.routes|, i requires 0 <= i < |p.routes| => p.routes[i].selector)
  }

  /** The kernel the compiler was told about: every fwmark rule is one of the declared existing
      rules, and the tables of the transport targets hold at most a default route. */
  ghost predicate Declared(k0: Kernel, targets: seq<Target>, existing: seq<RouteRule>) {
    && (forall r :: r in k0.rules ==> exists e :: e in existing && r.mark == e.mark)
    && (forall key, t :: key in k0.routes && t in targets && key.table == t.table ==>
         key.dest == DefaultCidr(key.family))
  }

  lemma DeclaredIsPrepared(net: Net, p: Profile, targets: seq<Target>, options: Options, plan: Plan, k0: Kernel)
    requires Compilable(net, p, targets, options)
    requires CompiledPlan(net, NormalizeOptions(net, options).value, p, targets, plan)
    requires Declared(k0, targets, options.existing)
    ensures Prepared(k0, plan.routes)
  {
    var o := NormalizeOptions(net, options).value;
    hide ValidPlan, Compilable, CompiledTo, NormalizeOptions;
    SelfCheckNeverFails(net, p, targets, options, plan);
    forall key, j | key in k0.routes && 0 <= j < |plan.routes| && key.family == plan.routes[j].family
                    && key.table == plan.routes[j].target.table
      ensures key.dest == DefaultCidr(key.family)
    {
      TargetTable(net, o, targets, p.routes[j], j, plan.routes[j]);
    }
  }

  lemma TargetTable(net: Net, o: Options, targets: seq<Target>, p: RoutePolicy, i: nat, r: Route)
    requires CompiledTo(net, o, targets, p, i, r)
    ensures exists t :: t in targets && t.table == r.target.table && net.trim(t.popID) == net.trim(p.chain.hops[0])
                        && HopOf(net, r) == Hop(net.trim(t.gateway), net.trim(t.iface))
  {
    hide SelectorFamily, TargetServes, Unreserved;
    var t :| t in targets && Chosen(net, o, t, p, i) && r.target == TrimTarget(net, t);
  }

  /** The packet leaves through the transport target of the profile route's first hop. */
  ghost predicate ReachesFirstHop(net: Net, k: Kernel, mark: int, dst: Addr, p: RoutePolicy, targets: seq<Target>) {
    && p.chain.hops != []
    && exists t :: t in targets && net.trim(t.popID) == net.trim(p.chain.hops[0])
         && OnlyVia(k, mark, dst, Hop(net.trim(t.gateway), net.trim(t.iface)))
  }

  /** Compiler correctness. A new connection entering on the ingress interface is sent to the
      transport target of the first profile route whose selector matches; when none matches both
      marks stay as they were. */
  lemma CompilerCorrect(net: Net, p: Profile, targets: seq<Target>, options: Options, plan: Plan,
                        k0: Kernel, pkt: Packet, meta: int)
    requires ColonMeansV6(net) && Compilable(net, p, targets, options)
    requires CompiledPlan(net, NormalizeOptions(net, options).value, p, targets, plan)
    requires Declared(k0, targets, options.existing)
    requires OnInterface(net.trim(options.ingress), pkt) && pkt.state == New && pkt.dst < Pow2(Bits(pkt.family))
    ensures Applied(net, k0, plan.routes).Some?
    ensures var out := RunChain(net, Rendered(net, plan), pkt, Marks(meta, 0));
            match FirstMatch(net, PolicySelectors(p), pkt)
            case None => out == Marks(meta, 0)
            case Some(i) =>
              && out.meta == out.ct == MarkAt(options, i)
              && ReachesFirstHop(net, Applied(net, k0, plan.routes).value, out.meta, Destination(pkt), p.routes[i],
                                 targets)
  {
    hide *;
    OptionsIff(net, options);
    PlanReady(net, p, targets, options, plan, k0);
    NewPacketMarks(net, plan, pkt, meta);
    var found := FirstMatch(net, PolicySelectors(p), pkt);
    if found.Some? {
      RouteReached(net, p, targets, options, plan, k0, found.value, pkt);
    }
  }

  lemma PlanReady(net: Net, p: Profile, targets: seq<Target>, options: Options, plan: Plan, k0: Kernel)
    requires Compilable(net, p, targets, options)
    requires CompiledPlan(net, NormalizeOptions(net, options).value, p, targets, plan)
    requires Declared(k0, targets, options.existing)
    ensures ValidPlan(net, plan) && Prepared(k0, plan.routes) && Applied(net, k0, plan.routes).Some?
    ensures NormalizeOptions(net, options).Ok? && net.trim(plan.ingress) == net.trim(options.ingress)
    ensures |plan.routes| == |p.routes| == |PolicySelectors(p)| && PolicySelectors(p) == Selectors(plan.routes)
  {
    hide ValidPlan, ValidProfile, CompiledTo, Declared;
    var o := NormalizeOptions(net, options).value;
    assert plan.ingress == net.trim(options.ingress);
    SelfCheckNeverFails(net, p, targets, options, plan);
    CompiledSelectors(net, o, p, targets, plan);
    DeclaredIsPrepared(net, p, targets, options, plan, k0);
    PlanInstalls(net, k0, plan);
  }

  lemma NewPacketMarks(net: Net, plan: Plan, pkt: Packet, meta: int)
    requires ColonMeansV6(net) && ValidPlan(net, plan) && OnInterface(net.trim(plan.ingress), pkt) && pkt.state == New
    ensures RunChain(net, Rendered(net, plan), pkt, Marks(meta, 0)) ==
            match FirstMatch(net, Selectors(plan.routes), pkt)
            case None => Marks(meta, 0)
            case Some(i) => Marks(plan.routes[i].mark, plan.routes[i].mark)
  {
    ChainMeansEffect(net, plan, pkt, Marks(meta, 0));
  }

  lemma CompiledSelectors(net: Net, o: Options, p: Profile, targets: seq<Target>, plan: Plan)
    requires CompiledPlan(net, o, p, targets, plan)
    ensures PolicySelectors(p) == Selectors(plan.routes)
  {
    assert forall i :: 0 <= i < |p.routes| ==> CompiledTo(net, o, targets, p.routes[i], i, plan.routes[i]);
  }

  lemma PlanInstalls(net: Net, k0: Kernel, plan: Plan)
    requires ValidPlan(net, plan) && Prepared(k0, plan.routes)
    ensures Applied(net, k0, plan.routes).Some?
  {
    hide SeparatedUpTo, InstalledUpTo, ValidRoute;
    CommandsInstall(net, k0, plan.routes, |plan.routes|);
  }

  lemma RouteReached(net: Net, p: Profile, targets: seq<Target>, options: Options, plan: Plan, k0: Kernel, i: nat,
                     pkt: Packet)
    requires ColonMeansV6(net) && ValidPlan(net, plan) && Prepared(k0, plan.routes)
             && NormalizeOptions(net, options).Ok?
    requires CompiledPlan(net, NormalizeOptions(net, options).value, p, targets, plan) && i < |plan.routes|
    requires SelectorMatches(net, Selectors(plan.routes)[i], pkt) && pkt.dst < Pow2(Bits(pkt.family))
    ensures plan.routes[i].mark == MarkAt(options, i)
    ensures Applied(net, k0, plan.routes).Some?
    ensures ReachesFirstHop(net, Applied(net, k0, plan.routes).value, plan.routes[i].mark, Destination(pkt),
                            p.routes[i], targets)
  {
    hide SelectorMatches, SeparatedUpTo, ValidRoute, Forwards, Applied, HopOf, Pow2, Prepared, NormalizeOptions;
    hide CompiledTo;
    var o := NormalizeOptions(net, options).value;
    var policy := p.routes[i];
    OptionsIff(net, options);
    CompiledMark(net, o, targets, policy, i, plan.routes[i]);
    TargetTable(net, o, targets, policy, i, plan.routes[i]);
    MatchedFamily(net, plan, i, pkt);
    MarkForwards(net, k0, plan.routes, i, Destination(pkt));
    var t :| t in targets && net.trim(t.popID) == net.trim(policy.chain.hops[0])
             && HopOf(net, plan.routes[i]) == Hop(net.trim(t.gateway), net.trim(t.iface));
    assert OnlyVia(Applied(net, k0, plan.routes).value, plan.routes[i].mark, Destination(pkt),
                   Hop(net.trim(t.gateway), net.trim(t.iface)));
  }

  lemma CompiledMark(net: Net, o: Options, targets: seq<Target>, p: RoutePolicy, i: nat, r: Route)
    requires CompiledTo(net, o, targets, p, i, r)
    ensures r.mark == o.markBase + i && p.chain.hops != [] && r.selector == p.selector
  {
  }

  lemma MatchedFamily(net: Net, plan: Plan, i: nat, pkt: Packet)
    requires ColonMeansV6(net) && ValidPlan(net, plan) && i < |plan.routes|
    requires SelectorMatches(net, plan.routes[i].selector, pkt)
    ensures pkt.family == plan.routes[i].family
  {
    hide ValidSelector, Contains;
    assert ValidRoute(net, plan.routes[i], net.trim(plan.localPOPID));
    var s := plan.routes[i].selector;
    CidrFamily(net, net.trim(s.sourceCIDR), Source(pkt));
    CidrFamily(net, net.trim(s.destinationCIDR), Destination(pkt));
  }

  // ---- connections over whole runs ----

  /** One packet of one connection reaching the prerouting hook. */
  datatype Arrival = Arrival(conn: nat, packet: Packet, meta: int)

  function CtMark(table: map<nat, int>, conn: nat): int { if conn in table then table[conn] else 0 }

  function Passing(net: Net, chain: seq<NftRule>, table: map<nat, int>, a: Arrival): Marks {
    RunChain(net, chain, a.packet, Marks(a.meta, CtMark(table, a.conn)))
  }

  /** The conntrack marks after a run of packets, in arrival order. */
  function Track(net: Net, chain: seq<NftRule>, table: map<nat, int>, run: seq<Arrival>): map<nat, int>
    decreases |run|
  {
    if run == [] then table
    else
      var before := Track(net, chain, table, run[..|run| - 1]);
      var a := run[|run| - 1];
      before[a.conn := Passing(net, chain, before, a).ct]
  }

  /** Conntrack has seen the packet's connection before. */
  predicate Follows(p: Packet) { p.state == Established || p.state == Related }

  /** The packet enters the chain: it is tracked, on the ingress interface, and some route matches it. */
  predicate Enters(net: Net, plan: Plan, p: Packet) {
    OnInterface(net.trim(plan.ingress), p) && Tracked(p) && FirstMatch(net, Selectors(plan.routes), p).Some?
  }

  /** The mark the profile gives a connection: that of the first route matching its first entering packet. */
  function AssignedMark(net: Net, plan: Plan, run: seq<Arrival>, conn: nat): int
    decreases |run|
  {
    if run == [] then 0
    else
      var earlier := AssignedMark(net, plan, run[..|run| - 1], conn);
      var a := run[|run| - 1];
      if earlier != 0 then earlier
      else if a.conn == conn && Enters(net, plan, a.packet)
      then plan.routes[FirstMatch(net, Selectors(plan.routes), a.packet).value].mark
      else 0
  }

  lemma {:induction false} ConnectionMark(net: Net, plan: Plan, table: map<nat, int>, run: seq<Arrival>, conn: nat)
    requires ColonMeansV6(net) && ValidPlan(net, plan)
    ensures CtMark(Track(net, Rendered(net, plan), table, run), conn) ==
            if CtMark(table, conn) != 0 then CtMark(table, conn) else AssignedMark(net, plan, run, conn)
    decreases |run|
  {
    hide ValidPlan, FirstMatch, Rendered;
    if run != [] {
      var earlier, a := run[..|run| - 1], run[|run| - 1];
      ConnectionMark(net, plan, table, earlier, conn);
      var before := Track(net, Rendered(net, plan), table, earlier);
      ChainMeansEffect(net, plan, a.packet, Marks(a.meta, CtMark(before, a.conn)));
    }
  }

  lemma {:induction false} AssignedMarkIsSticky(net: Net, plan: Plan, run: seq<Arrival>, conn: nat, i: nat, j: nat)
    requires i <= j <= |run|
    requires AssignedMark(net, plan, run[..i], conn) != 0
    ensures AssignedMark(net, plan, run[..j], conn) == AssignedMark(net, plan, run[..i], conn)
    decreases j - i
  {
    hide FirstMatch;
    if i < j {
      AssignedMarkIsSticky(net, plan, run, conn, i, j - 1);
      assert run[..j][..j - 1] == run[..j - 1];
    }
  }

  /** Connection affinity: once a connection is marked, no later packet of any connection, on any
      interface and in any direction, changes its mark, and every established or related packet of
      it carries that mark. */
  lemma Affinity(net: Net, plan: Plan, table: map<nat, int>, run: seq<Arrival>, i: nat, j: nat, conn: nat)
    requires ColonMeansV6(net) && ValidPlan(net, plan) && i <= j <= |run|
    requires CtMark(Track(net, Rendered(net, plan), table, run[..i]), conn) != 0
    ensures var mark := CtMark(Track(net, Rendered(net, plan), table, run[..i]), conn);
            && CtMark(Track(net, Rendered(net, plan), table, run[..j]), conn) == mark
            && (j < |run| && run[j].conn == conn && Follows(run[j].packet) ==>
                  Passing(net, Rendered(net, plan), Track(net, Rendered(net, plan), table, run[..j]), run[j]) ==
                  Marks(mark, mark))
  {
    hide ValidPlan, FirstMatch, Rendered, AssignedMark;
    ConnectionMark(net, plan, table, run[..i], conn);
    ConnectionMark(net, plan, table, run[..j], conn);
    if CtMark(table, conn) == 0 {
      AssignedMarkIsSticky(net, plan, run, conn, i, j);
    }
    if j < |run| {
      ChainMeansEffect(net, plan, run[j].packet,
                       Marks(run[j].meta, CtMark(Track(net, Rendered(net, plan), table, run[..j]), run[j].conn)));
    }
  }

  lemma {:induction false} AssignedMarkBelongsToRoute(net: Net, plan: Plan, run: seq<Arrival>, conn: nat)
    requires AssignedMark(net, plan, run, conn) != 0
    ensures exists i :: 0 <= i < |plan.routes| && plan.routes[i].mark == AssignedMark(net, plan, run, conn)
    decreases |run|
  {
    hide FirstMatch;
    if AssignedMark(net, plan, run[..|run| - 1], conn) != 0 {
      AssignedMarkBelongsToRoute(net, plan, run[..|run| - 1], conn);
    } else {
      var found := FirstMatch(net, Selectors(plan.routes), run[|run| - 1].packet);
      assert plan.routes[found.value].mark == AssignedMark(net, plan, run, conn);
    }
  }

  /** An established or related packet of the connection, of the route's family. */
  predicate FollowsOn(a: Arrival, conn: nat, r: Route) {
    a.conn == conn && Follows(a.packet) && a.packet.family == r.family && a.packet.dst < Pow2(Bits(r.family))
  }

  /** Affinity down to the next hop: starting with no marks, a marked connection carries the mark of one
      route, and its established packets all leave through that route's target. */
  lemma EstablishedReachOneTarget(net: Net, plan: Plan, k0: Kernel, run: seq<Arrival>, i: nat, conn: nat)
    requires ColonMeansV6(net) && ValidPlan(net, plan) && Prepared(k0, plan.routes) && i <= |run|
    requires CtMark(Track(net, Rendered(net, plan), map[], run[..i]), conn) != 0
    ensures Applied(net, k0, plan.routes).Some?
    ensures var k, chain := Applied(net, k0, plan.routes).value, Rendered(net, plan);
            exists n :: 0 <= n < |plan.routes|
              && plan.routes[n].mark == CtMark(Track(net, chain, map[], run[..i]), conn)
              && forall j :: i <= j < |run| && FollowsOn(run[j], conn, plan.routes[n]) ==>
                OnlyVia(k, Passing(net, chain, Track(net, chain, map[], run[..j]), run[j]).meta,
                        Destination(run[j].packet), HopOf(net, plan.routes[n]))
  {
    assert SeparatedUpTo(net, plan.routes, |plan.routes|);
    hide Rendered, AssignedMark, Track, Passing, OnlyVia, ValidPlan, SeparatedUpTo, InstalledUpTo, Applied, Pow2, HopOf;
    var chain := Rendered(net, plan);
    var mark := CtMark(Track(net, chain, map[], run[..i]), conn);
    ConnectionMark(net, plan, map[], run[..i], conn);
    AssignedMarkBelongsToRoute(net, plan, run[..i], conn);
    PlanInstalls(net, k0, plan);
    var n :| 0 <= n < |plan.routes| && plan.routes[n].mark == mark;
    forall j | i <= j < |run| && FollowsOn(run[j], conn, plan.routes[n])
      ensures OnlyVia(Applied(net, k0, plan.routes).value,
                      Passing(net, chain, Track(net, chain, map[], run[..j]), run[j]).meta,
                      Destination(run[j].packet), HopOf(net, plan.routes[n]))
    {
      Affinity(net, plan, map[], run, i, j, conn);
      MarkForwards(net, k0, plan.routes, n, Destination(run[j].packet));
    }
  }

  /** Why affinity speaks of established packets only: a repeated packet still in state new is
      not given its connection's mark. */
  lemma RepeatedNewPacketKeepsItsMark(net: Net, plan: Plan, pkt: Packet, marks: Marks)
    requires ColonMeansV6(net) && ValidPlan(net, plan) && pkt.state == New && marks.ct != 0
    ensures RunChain(net, Rendered(net, plan), pkt, marks) == marks
  {
    ChainMeansEffect(net, plan, pkt, marks);
  }
}
