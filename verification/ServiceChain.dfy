/** The service-chain compiler: a POP profile becomes marks, preferences and targets. */
module ServiceChain {
  import opened Text
  import opened Network
  import opened PopProfile
  import opened Gateway

  const DEFAULT_MARK_BASE: int := 4000
  const DEFAULT_PREFERENCE_BASE: int := 14000

  datatype Target = Target(popID: string, gateway: string, iface: string, table: int)
  datatype Options = Options(
    localPOPID: string, ingress: string, markBase: int, preferenceBase: int, existing: seq<RouteRule>)
  datatype Route = Route(
    routeID: string, chainID: string, nextPOPID: string, returnHops: seq<string>,
    selector: RouteSelector, family: Family, mark: int, preference: int, target: Target)
  datatype Plan = Plan(localPOPID: string, ingress: string, routes: seq<Route>)

  predicate ValidInterface(s: string) {
    s != "" && forall c :: c in s ==> c !in {' ', '\t', '\r', '\n', '\"', '\''}
  }

  function TrimTarget(net: Net, t: Target): Target {
    Target(net.trim(t.popID), net.trim(t.gateway), net.trim(t.iface), t.table)
  }

  predicate UsableTarget(net: Net, t: Target) {
    && t.popID != "" && (t.gateway != "" ==> net.parseIP(t.gateway).Some?) && ValidInterface(t.iface)
    && t.table > 0 && t.table !in {253, 254, 255}
  }

  /** `normalizeServiceChainTransportTarget`. */
  function NormalizeTarget(net: Net, t: Target): Outcome<Target> {
    if UsableTarget(net, TrimTarget(net, t)) then Ok(TrimTarget(net, t)) else Rejected
  }

  function TextFamily(s: string): Family { if ':' in s then V6 else V4 }

  /** `compileServiceChainSelector`: only CIDR, protocol and port matches of one family compile. */
  function SelectorFamily(net: Net, s: RouteSelector): Outcome<Family> {
    var src, dst := net.trim(s.sourceCIDR), net.trim(s.destinationCIDR);
    if !ValidSelector(net, s) || net.trim(s.domainSuffix) != "" || net.trim(s.trafficClass) != ""
       || (src == "" && dst == "")
      then Rejected
    else if (src != "" && net.parseCIDR(src).None?) || (dst != "" && net.parseCIDR(dst).None?) then Rejected
    else if src != "" && dst != "" && TextFamily(src) != TextFamily(dst) then Rejected
    else Ok(TextFamily(if dst != "" then dst else src))
  }

  predicate TargetServes(net: Net, t: Target, f: Family) {
    t.gateway == "" || (net.parseIP(t.gateway).Some? && TextFamily(t.gateway) == f)
  }

  predicate Unreserved(existing: seq<RouteRule>, mark: int, preference: int, table: int) {
    forall i :: 0 <= i < |existing| ==>
      mark != existing[i].mark && preference != existing[i].preference && table != existing[i].table
  }

  /** `normalizeServiceChainCompileOptions`. */
  function NormalizeOptions(net: Net, o: Options): Outcome<Options> {
    var n := Options(net.trim(o.localPOPID), net.trim(o.ingress),
                     if o.markBase == 0 then DEFAULT_MARK_BASE else o.markBase,
                     if o.preferenceBase == 0 then DEFAULT_PREFERENCE_BASE else o.preferenceBase, o.existing);
    if n.localPOPID != "" && ValidInterface(n.ingress) && n.markBase > 0 && n.preferenceBase > 0
       && (forall i :: 0 <= i < |o.existing| ==> ValidRouteRule(net, o.existing[i]))
    then Ok(n) else Rejected
  }

  // ---- the transport targets, indexed by POP ----

  ghost predicate UsableUpTo(net: Net, targets: seq<Target>, k: nat)
    requires k <= |targets|
  {
    && (forall i :: 0 <= i < k ==> UsableTarget(net, TrimTarget(net, targets[i])))
    && (forall i, j :: 0 <= i < j < k ==>
          TrimTarget(net, targets[i]).popID != TrimTarget(net, targets[j]).popID
          && targets[i].table != targets[j].table)
  }

  ghost predicate ValidTargets(net: Net, targets: seq<Target>) {
    UsableUpTo(net, targets, |targets|)
  }

  ghost predicate IndexedUpTo(net: Net, byPOP: map<string, Target>, targets: seq<Target>, k: nat)
    requires k <= |targets|
  {
    && (forall i :: 0 <= i < k ==>
          TrimTarget(net, targets[i]).popID in byPOP
          && byPOP[TrimTarget(net, targets[i]).popID] == TrimTarget(net, targets[i]))
    && (forall p :: p in byPOP ==>
          p == byPOP[p].popID && exists i :: 0 <= i < k && byPOP[p] == TrimTarget(net, targets[i]))
  }

  /** `byPOP` holds exactly the trimmed targets, each under its own POP id. */
  ghost predicate IndexesTargets(net: Net, byPOP: map<string, Target>, targets: seq<Target>) {
    IndexedUpTo(net, byPOP, targets, |targets|)
  }

  lemma IndexExtends(net: Net, byPOP: map<string, Target>, targets: seq<Target>, k: nat, t: Target)
    requires k < |targets| && t == TrimTarget(net, targets[k])
    requires IndexedUpTo(net, byPOP, targets, k) && t.popID !in byPOP
    ensures IndexedUpTo(net, byPOP[t.popID := t], targets, k + 1)
  {
    hide TrimTarget;
  }

  lemma UsableExtends(net: Net, byPOP: map<string, Target>, targets: seq<Target>, k: nat, t: Target)
    requires k < |targets| && t == TrimTarget(net, targets[k]) && UsableTarget(net, t)
    requires UsableUpTo(net, targets, k) && IndexedUpTo(net, byPOP, targets, k)
    requires t.popID !in byPOP && forall i :: 0 <= i < k ==> targets[i].table != targets[k].table
    ensures UsableUpTo(net, targets, k + 1)
  {
    hide TrimTarget, UsableTarget;
  }

  lemma IndexCollides(net: Net, byPOP: map<string, Target>, targets: seq<Target>, k: nat)
    requires k < |targets| && IndexedUpTo(net, byPOP, targets, k)
    requires !UsableTarget(net, TrimTarget(net, targets[k])) || TrimTarget(net, targets[k]).popID in byPOP
             || exists i :: 0 <= i < k && targets[i].table == targets[k].table
    ensures !ValidTargets(net, targets)
  {
    hide UsableTarget, TrimTarget;
    if TrimTarget(net, targets[k]).popID in byPOP {
      var i :| 0 <= i < k && byPOP[TrimTarget(net, targets[k]).popID] == TrimTarget(net, targets[i]);
    }
  }

  /** `serviceChainTargetsByPOPID`. */
  method TargetsByPOPID(net: Net, targets: seq<Target>) returns (r: Outcome<map<string, Target>>)
    ensures r.Ok? <==> ValidTargets(net, targets)
    ensures r.Ok? ==> IndexesTargets(net, r.value, targets)
  {
    var byPOP: map<string, Target> := map[];
    var tables: set<int> := {};
    assert UsableUpTo(net, targets, 0) && IndexedUpTo(net, byPOP, targets, 0);
    hide UsableTarget, TrimTarget, UsableUpTo, IndexedUpTo;
    for k := 0 to |targets|
      invariant UsableUpTo(net, targets, k) && IndexedUpTo(net, byPOP, targets, k)
      invariant forall i :: 0 <= i < k ==> targets[i].table in tables
      invariant forall t :: t in tables ==> exists i :: 0 <= i < k && targets[i].table == t
    {
      var normalized := NormalizeTarget(net, targets[k]);
      TrimKeepsTable(net, targets[k]);
      if normalized.Rejected? || normalized.value.popID in byPOP || normalized.value.table in tables {
        IndexCollides(net, byPOP, targets, k);
        return Rejected;
      }
      UsableExtends(net, byPOP, targets, k, normalized.value);
      IndexExtends(net, byPOP, targets, k, normalized.value);
      byPOP := byPOP[normalized.value.popID := normalized.value];
      tables := tables + {normalized.value.table};
    }
    return Ok(byPOP);
  }

  lemma TrimKeepsTable(net: Net, t: Target)
    ensures TrimTarget(net, t).table == t.table
  {
  }

  // ---- the plan and its validation ----

  predicate SameTarget(net: Net, a: Target, b: Target) { TrimTarget(net, a) == TrimTarget(net, b) }

  ghost predicate ValidRoute(net: Net, r: Route, localPOPID: string) {
    && net.trim(r.routeID) != "" && net.trim(r.chainID) != "" && net.trim(r.nextPOPID) != ""
    && net.trim(r.nextPOPID) != localPOPID && r.mark > 0 && r.preference > 0
    && SelectorFamily(net, r.selector) == Ok(r.family)
    && ValidHops(net, r.returnHops)
    && UsableTarget(net, TrimTarget(net, r.target)) && TrimTarget(net, r.target).popID == net.trim(r.nextPOPID)
    && TargetServes(net, TrimTarget(net, r.target), r.family)
  }

  ghost predicate Separated(net: Net, a: Route, b: Route) {
    && a.mark != b.mark && a.preference != b.preference
    && (a.family == b.family && a.target.table == b.target.table ==> SameTarget(net, a.target, b.target))
  }

  /** What `ServiceChainPlan.Validate` accepts. */
  ghost predicate ValidPlan(net: Net, p: Plan) {
    && net.trim(p.localPOPID) != "" && ValidInterface(p.ingress) && p.routes != []
    && (forall i :: 0 <= i < |p.routes| ==> ValidRoute(net, p.routes[i], net.trim(p.localPOPID)))
    && SeparatedUpTo(net, p.routes, |p.routes|)
  }

  ghost predicate SeparatedUpTo(net: Net, routes: seq<Route>, k: nat)
    requires k <= |routes|
  {
    forall i, j :: 0 <= i < j < k ==> Separated(net, routes[i], routes[j])
  }

  method ValidateRoute(net: Net, r: Route, localPOPID: string) returns (ok: bool)
    ensures ok <==> ValidRoute(net, r, localPOPID)
  {
    if net.trim(r.routeID) == "" || net.trim(r.chainID) == "" || net.trim(r.nextPOPID) == ""
       || net.trim(r.nextPOPID) == localPOPID
       || r.mark <= 0 || r.preference <= 0 || SelectorFamily(net, r.selector) != Ok(r.family) { return false; }
    var hopsOk := ValidateHopList(net, r.returnHops);
    if !hopsOk { return false; }
    var target := NormalizeTarget(net, r.target);
    return target.Ok? && target.value.popID == net.trim(r.nextPOPID) && TargetServes(net, target.value, r.family);
  }

  datatype TableKey = TableKey(family: Family, table: int)

  function KeyOf(r: Route): TableKey { TableKey(r.family, r.target.table) }

  // The three tables `Validate` fills describe the first `k` routes.

  ghost predicate MarksSeen(routes: seq<Route>, k: nat, marks: set<int>)
    requires k <= |routes|
  {
    && (forall i :: 0 <= i < k ==> routes[i].mark in marks)
    && (forall m :: m in marks ==> exists i :: 0 <= i < k && routes[i].mark == m)
  }

  ghost predicate PreferencesSeen(routes: seq<Route>, k: nat, preferences: set<int>)
    requires k <= |routes|
  {
    && (forall i :: 0 <= i < k ==> routes[i].preference in preferences)
    && (forall m :: m in preferences ==> exists i :: 0 <= i < k && routes[i].preference == m)
  }

  ghost predicate TablesSeen(net: Net, routes: seq<Route>, k: nat, tables: map<TableKey, Target>)
    requires k <= |routes|
  {
    && (forall i :: 0 <= i < k ==>
         KeyOf(routes[i]) in tables && SameTarget(net, tables[KeyOf(routes[i])], routes[i].target))
    && (forall key :: key in tables ==>
         exists i :: 0 <= i < k && KeyOf(routes[i]) == key && tables[key] == routes[i].target)
  }

  lemma MarksExtend(routes: seq<Route>, k: nat, marks: set<int>)
    requires k < |routes| && MarksSeen(routes, k, marks)
    ensures MarksSeen(routes, k + 1, marks + {routes[k].mark})
    ensures routes[k].mark in marks <==> exists i :: 0 <= i < k && routes[i].mark == routes[k].mark
  {
  }

  lemma PreferencesExtend(routes: seq<Route>, k: nat, preferences: set<int>)
    requires k < |routes| && PreferencesSeen(routes, k, preferences)
    ensures PreferencesSeen(routes, k + 1, preferences + {routes[k].preference})
    ensures routes[k].preference in preferences <==>
              exists i :: 0 <= i < k && routes[i].preference == routes[k].preference
  {
  }

  lemma TablesExtend(net: Net, routes: seq<Route>, k: nat, tables: map<TableKey, Target>)
    requires k < |routes| && TablesSeen(net, routes, k, tables)
    ensures TableClash(net, tables, routes[k]) <==>
            exists i ::
              0 <= i < k && KeyOf(routes[i]) == KeyOf(routes[k]) && !SameTarget(net, routes[i].target, routes[k].target)
    ensures !TableClash(net, tables, routes[k]) ==>
            TablesSeen(net, routes, k + 1, tables[KeyOf(routes[k]) := routes[k].target])
  {
    hide TrimTarget;
  }

  predicate TableClash(net: Net, tables: map<TableKey, Target>, r: Route) {
    KeyOf(r) in tables && !SameTarget(net, tables[KeyOf(r)], r.target)
  }

  predicate Clashes(net: Net, marks: set<int>, preferences: set<int>, tables: map<TableKey, Target>, r: Route) {
    r.mark in marks || r.preference in preferences || TableClash(net, tables, r)
  }

  ghost predicate Seen(net: Net, routes: seq<Route>, k: nat, marks: set<int>, preferences: set<int>,
                       tables: map<TableKey, Target>)
    requires k <= |routes|
  {
    MarksSeen(routes, k, marks) && PreferencesSeen(routes, k, preferences) && TablesSeen(net, routes, k, tables)
  }

  lemma ClashBreaksSeparation(net: Net, routes: seq<Route>, k: nat, marks: set<int>, preferences: set<int>,
                              tables: map<TableKey, Target>)
    requires k < |routes| && Seen(net, routes, k, marks, preferences, tables)
    requires Clashes(net, marks, preferences, tables, routes[k])
    ensures !SeparatedUpTo(net, routes, |routes|)
  {
    hide MarksSeen, PreferencesSeen, TablesSeen, SameTarget, SeparatedUpTo;
    if routes[k].mark in marks {
      MarksExtend(routes, k, marks);
      var i :| 0 <= i < k && routes[i].mark == routes[k].mark;
      NotSeparated(net, routes, i, k);
    } else if routes[k].preference in preferences {
      PreferencesExtend(routes, k, preferences);
      var i :| 0 <= i < k && routes[i].preference == routes[k].preference;
      NotSeparated(net, routes, i, k);
    } else {
      TablesExtend(net, routes, k, tables);
      var i :| 0 <= i < k && KeyOf(routes[i]) == KeyOf(routes[k])
      && !SameTarget(net, routes[i].target, routes[k].target);
      NotSeparated(net, routes, i, k);
    }
  }

  lemma NotSeparated(net: Net, routes: seq<Route>, i: nat, k: nat)
    requires i < k < |routes| && !Separated(net, routes[i], routes[k])
    ensures !SeparatedUpTo(net, routes, |routes|)
  {
  }

  lemma NoClashKeepsSeparation(net: Net, routes: seq<Route>, k: nat, marks: set<int>, preferences: set<int>,
                               tables: map<TableKey, Target>)
    requires k < |routes| && Seen(net, routes, k, marks, preferences, tables) && SeparatedUpTo(net, routes, k)
    requires !Clashes(net, marks, preferences, tables, routes[k])
    ensures SeparatedUpTo(net, routes, k + 1)
  {
    hide MarksSeen, PreferencesSeen, TablesSeen, SameTarget, Separated;
    forall i | 0 <= i < k ensures Separated(net, routes[i], routes[k]) {
      NoClashWith(net, routes, k, marks, preferences, tables, i);
    }
  }

  lemma NoClashWith(net: Net, routes: seq<Route>, k: nat, marks: set<int>, preferences: set<int>,
                    tables: map<TableKey, Target>, i: nat)
    requires k < |routes| && Seen(net, routes, k, marks, preferences, tables)
    requires !Clashes(net, marks, preferences, tables, routes[k]) && i < k
    ensures Separated(net, routes[i], routes[k])
  {
    hide MarksSeen, PreferencesSeen, TablesSeen, SameTarget;
    MarksExtend(routes, k, marks);
    PreferencesExtend(routes, k, preferences);
    TablesExtend(net, routes, k, tables);
  }

  lemma NoClashExtends(net: Net, routes: seq<Route>, k: nat, marks: set<int>, preferences: set<int>,
                       tables: map<TableKey, Target>)
    requires k < |routes| && Seen(net, routes, k, marks, preferences, tables)
    requires !Clashes(net, marks, preferences, tables, routes[k])
    ensures Seen(net, routes, k + 1, marks + {routes[k].mark}, preferences + {routes[k].preference},
                 tables[KeyOf(routes[k]) := routes[k].target])
  {
    hide MarksSeen, PreferencesSeen, TablesSeen, SameTarget;
    MarksExtend(routes, k, marks);
    PreferencesExtend(routes, k, preferences);
    TablesExtend(net, routes, k, tables);
  }

  /** `ServiceChainPlan.Validate`: one pass over three tables decides the pairwise condition. */
  method ValidatePlan(net: Net, p: Plan) returns (ok: bool)
    ensures ok <==> ValidPlan(net, p)
  {
    hide ValidRoute, Seen, SeparatedUpTo, Clashes;
    var localPOPID := net.trim(p.localPOPID);
    if localPOPID == "" || !ValidInterface(p.ingress) || p.routes == [] { return false; }
    var marks: set<int>, preferences: set<int> := {}, {};
    var tables: map<TableKey, Target> := map[];
    EmptyTables(net, p.routes);
    for k := 0 to |p.routes|
      invariant Seen(net, p.routes, k, marks, preferences, tables) && SeparatedUpTo(net, p.routes, k)
      invariant forall i :: 0 <= i < k ==> ValidRoute(net, p.routes[i], localPOPID)
    {
      var route := p.routes[k];
      var valid := ValidateRoute(net, route, localPOPID);
      if !valid { return false; }
      if Clashes(net, marks, preferences, tables, route) {
        ClashBreaksSeparation(net, p.routes, k, marks, preferences, tables);
        return false;
      }
      NoClashKeepsSeparation(net, p.routes, k, marks, preferences, tables);
      NoClashExtends(net, p.routes, k, marks, preferences, tables);
      marks, preferences := marks + {route.mark}, preferences + {route.preference};
      tables := tables[KeyOf(route) := route.target];
    }
    return true;
  }

  lemma EmptyTables(net: Net, routes: seq<Route>)
    ensures Seen(net, routes, 0, {}, {}, map[]) && SeparatedUpTo(net, routes, 0)
  {
  }

  // ---- compilation ----

  /** The checks one profile route goes through, given the normalised options. */
  ghost predicate Routable(net: Net, o: Options, targets: seq<Target>, p: RoutePolicy, index: nat) {
    && p.chain.hops != [] && o.markBase + index <= MAX_INT && o.preferenceBase + index <= MAX_INT
    && net.trim(p.chain.hops[0]) != o.localPOPID
    && SelectorFamily(net, p.selector).Ok?
    && exists t :: t in targets && Chosen(net, o, t, p, index)
  }

  /** `t` is the transport target of the route's first hop and nothing it would use is taken. */
  predicate Chosen(net: Net, o: Options, t: Target, p: RoutePolicy, index: nat)
    requires p.chain.hops != [] && SelectorFamily(net, p.selector).Ok?
  {
    && TrimTarget(net, t).popID == net.trim(p.chain.hops[0])
    && Unreserved(o.existing, o.markBase + index, o.preferenceBase + index, t.table)
    && TargetServes(net, TrimTarget(net, t), SelectorFamily(net, p.selector).value)
  }

  /** Every check the compiler makes before its closing `plan.Validate`. */
  ghost predicate Compilable(net: Net, p: Profile, targets: seq<Target>, options: Options) {
    && ValidProfile(net, p) && NormalizeOptions(net, options).Ok?
    && var o := NormalizeOptions(net, options).value;
       && o.localPOPID == net.trim(p.principalID) && ValidTargets(net, targets)
       && forall i :: 0 <= i < |p.routes| ==> Routable(net, o, targets, p.routes[i], i)
  }

  /** `r` is the compiled form of the profile route at `index`. */
  ghost predicate CompiledTo(net: Net, o: Options, targets: seq<Target>, p: RoutePolicy, index: nat, r: Route) {
    && p.chain.hops != [] && r.routeID == net.trim(p.id) && r.chainID == net.trim(p.chain.id)
    && r.nextPOPID == net.trim(p.chain.hops[0]) && r.returnHops == p.chain.returnHops && r.selector == p.selector
    && SelectorFamily(net, p.selector) == Ok(r.family)
    && r.mark == o.markBase + index && r.preference == o.preferenceBase + index
    && (exists t :: t in targets && Chosen(net, o, t, p, index) && r.target == TrimTarget(net, t))
  }

  ghost predicate CompiledPlan(net: Net, o: Options, p: Profile, targets: seq<Target>, plan: Plan) {
    && plan.localPOPID == o.localPOPID && plan.ingress == o.ingress && |plan.routes| == |p.routes|
    && forall i :: 0 <= i < |p.routes| ==> CompiledTo(net, o, targets, p.routes[i], i, plan.routes[i])
  }

  lemma CompiledRouteIsValid(net: Net, o: Options, targets: seq<Target>, p: RoutePolicy, index: nat, r: Route)
    requires ValidPolicy(net, p) && ValidTargets(net, targets)
    requires o.markBase > 0 && o.preferenceBase > 0 && net.trim(p.chain.hops[0]) != o.localPOPID
    requires CompiledTo(net, o, targets, p, index, r)
    ensures ValidRoute(net, r, o.localPOPID)
  {
    hide SelectorFamily, ValidHops, ValidSelector, TargetServes, Unreserved;
    var t :| t in targets && Chosen(net, o, t, p, index) && r.target == TrimTarget(net, t);
    var i :| 0 <= i < |targets| && targets[i] == t;
    TrimTargetIdempotent(net, t);
    assert Identifier(net, p.chain.hops[0]) by {
      assert ValidHops(net, p.chain.hops);
      FirstHopNamed(net, p.chain.hops);
    }
  }

  lemma FirstHopNamed(net: Net, hops: seq<string>)
    requires ValidHops(net, hops) && hops != []
    ensures Identifier(net, hops[0])
  {
  }

  lemma TrimTargetIdempotent(net: Net, t: Target)
    ensures TrimTarget(net, TrimTarget(net, t)) == TrimTarget(net, t)
  {
  }

  /** The closing self-check accepts whatever the earlier checks let through. */
  lemma SelfCheckNeverFails(net: Net, p: Profile, targets: seq<Target>, options: Options, plan: Plan)
    requires Compilable(net, p, targets, options)
    requires CompiledPlan(net, NormalizeOptions(net, options).value, p, targets, plan)
    ensures ValidPlan(net, plan)
    ensures forall i, e :: 0 <= i < |plan.routes| && e in options.existing ==>
              plan.routes[i].mark != e.mark && plan.routes[i].preference != e.preference
              && plan.routes[i].target.table != e.table
  {
    hide ValidRoute, ValidPolicy, SelectorFamily, ValidRouteRule, UsableTarget, TrimTarget, Chosen;
    var o := NormalizeOptions(net, options).value;
    forall i | 0 <= i < |plan.routes|
      ensures ValidRoute(net, plan.routes[i], o.localPOPID)
      ensures forall e :: e in options.existing ==>
                plan.routes[i].mark != e.mark && plan.routes[i].preference != e.preference
                && plan.routes[i].target.table != e.table
    {
      assert Routable(net, o, targets, p.routes[i], i);
      CompiledRouteIsValid(net, o, targets, p.routes[i], i, plan.routes[i]);
      CompiledRouteUnreserved(net, o, targets, p.routes[i], i, plan.routes[i]);
    }
    forall i, j | 0 <= i < j < |plan.routes| ensures Separated(net, plan.routes[i], plan.routes[j]) {
      CompiledRoutesSeparated(net, o, targets, p.routes[i], i, plan.routes[i], p.routes[j], j, plan.routes[j]);
    }
  }

  lemma CompiledRouteUnreserved(net: Net, o: Options, targets: seq<Target>, p: RoutePolicy, index: nat, r: Route)
    requires CompiledTo(net, o, targets, p, index, r)
    ensures forall e :: e in o.existing ==>
              r.mark != e.mark && r.preference != e.preference && r.target.table != e.table
  {
    hide SelectorFamily;
    var t :| t in targets && Chosen(net, o, t, p, index) && r.target == TrimTarget(net, t);
    assert r.target.table == t.table;
  }

  lemma CompiledRoutesSeparated(net: Net, o: Options, targets: seq<Target>,
                                p: RoutePolicy, i: nat, r: Route, q: RoutePolicy, j: nat, s: Route)
    requires ValidTargets(net, targets) && i != j
    requires CompiledTo(net, o, targets, p, i, r) && CompiledTo(net, o, targets, q, j, s)
    ensures Separated(net, r, s)
  {
    hide SelectorFamily, UsableTarget;
    var t :| t in targets && Chosen(net, o, t, p, i) && r.target == TrimTarget(net, t);
    var u :| u in targets && Chosen(net, o, u, q, j) && s.target == TrimTarget(net, u);
    var a :| 0 <= a < |targets| && targets[a] == t;
    var b :| 0 <= b < |targets| && targets[b] == u;
    if t.table == u.table {
      assert a == b;
    }
  }

  ghost predicate RoutesCompiled(net: Net, o: Options, policies: seq<RoutePolicy>, targets: seq<Target>, k: nat,
                                 routes: seq<Route>)
    requires k <= |policies| && |routes| == k
  {
    forall i :: 0 <= i < k ==>
      Routable(net, o, targets, policies[i], i) && CompiledTo(net, o, targets, policies[i], i, routes[i])
  }

  /** The compiler's loop over the profile routes. */
  method CompileRoutes(net: Net, o: Options, targets: seq<Target>, byPOP: map<string, Target>,
                       policies: seq<RoutePolicy>)
    returns (r: Outcome<seq<Route>>)
    requires IndexesTargets(net, byPOP, targets)
    requires forall i :: 0 <= i < |policies| ==> policies[i].chain.hops != []
    ensures r.Ok? <==> forall i :: 0 <= i < |policies| ==> Routable(net, o, targets, policies[i], i)
    ensures r.Ok? ==> |r.value| == |policies| && RoutesCompiled(net, o, policies, targets, |policies|, r.value)
  {
    hide Routable, CompiledTo, IndexesTargets;
    var routes: seq<Route> := [];
    for k := 0 to |policies|
      invariant |routes| == k && RoutesCompiled(net, o, policies, targets, k, routes)
    {
      var route := CompileRoute(net, o, targets, byPOP, policies[k], k);
      if route.Rejected? { return Rejected; }
      routes := routes + [route.value];
    }
    return Ok(routes);
  }

  /** `CompileServiceChainPlan`. */
  method Compile(net: Net, p: Profile, targets: seq<Target>, options: Options) returns (r: Outcome<Plan>)
    ensures r.Ok? <==> Compilable(net, p, targets, options)
    ensures r.Ok? ==> CompiledPlan(net, NormalizeOptions(net, options).value, p, targets, r.value)
    ensures r.Ok? ==> ValidPlan(net, r.value)
  {
    hide ValidProfile, ValidTargets, ValidPlan, IndexesTargets, NormalizeOptions, Routable, CompiledTo;
    var valid := ValidateProfile(net, p);
    if !valid { return Rejected; }
    var normalized := NormalizeOptions(net, options);
    if normalized.Rejected? { return Rejected; }
    var o := normalized.value;
    if o.localPOPID != net.trim(p.principalID) { return Rejected; }
    var indexed := TargetsByPOPID(net, targets);
    if indexed.Rejected? { return Rejected; }
    ProfileHasHops(net, p);
    var routes := CompileRoutes(net, o, targets, indexed.value, p.routes);
    if routes.Rejected? { return Rejected; }
    var plan := Plan(o.localPOPID, o.ingress, routes.value);
    SelfCheckNeverFails(net, p, targets, options, plan);
    var accepted := ValidatePlan(net, plan);
    if !accepted { return Rejected; }
    return Ok(plan);
  }

  lemma ProfileHasHops(net: Net, p: Profile)
    requires ValidProfile(net, p)
    ensures forall i :: 0 <= i < |p.routes| ==> p.routes[i].chain.hops != []
  {
  }

  /** One round of the compiler's loop. */
  method CompileRoute(net: Net, o: Options, targets: seq<Target>, byPOP: map<string, Target>, p: RoutePolicy,
                      index: nat)
    returns (r: Outcome<Route>)
    requires IndexesTargets(net, byPOP, targets) && p.chain.hops != []
    ensures r.Ok? <==> Routable(net, o, targets, p, index)
    ensures r.Ok? ==> CompiledTo(net, o, targets, p, index, r.value)
  {
    hide SelectorFamily, TargetServes, Unreserved;
    if o.markBase > MAX_INT - index || o.preferenceBase > MAX_INT - index { return Rejected; }
    var nextPOPID := net.trim(p.chain.hops[0]);
    if nextPOPID == o.localPOPID { return Rejected; }
    if nextPOPID !in byPOP { return Rejected; }
    var target := byPOP[nextPOPID];
    if !Unreserved(o.existing, o.markBase + index, o.preferenceBase + index, target.table) { return Rejected; }
    var family := SelectorFamily(net, p.selector);
    if family.Rejected? || !TargetServes(net, target, family.value) { return Rejected; }
    ghost var i :| 0 <= i < |targets| && target == TrimTarget(net, targets[i]);
    assert Chosen(net, o, targets[i], p, index);
    return Ok(Route(net.trim(p.id), net.trim(p.chain.id), nextPOPID, p.chain.returnHops, p.selector, family.value,
                    o.markBase + index, o.preferenceBase + index, target));
  }
}
