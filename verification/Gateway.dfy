/** Applying a gateway configuration command by command, and rolling it back. */
module Gateway {
  import opened Text
  import opened Sorting
  import opened Network

  /** One route rule of a gateway configuration. */
  datatype RouteRule = RouteRule(
    name: string, mark: int, matchCIDR: string, table: int,
    destCIDR: string, gateway: string, iface: string, preference: int)

  predicate ValidRouteRule(net: Net, r: RouteRule) {
    && r.name != "" && r.mark > 0 && r.table > 0
    && (r.matchCIDR != "" ==> net.parseCIDR(r.matchCIDR).Some?)
    && net.parseCIDR(r.destCIDR).Some?
    && (r.gateway != "" ==> net.parseIP(r.gateway).Some?)
    && r.iface != ""
  }

  // ---- the host and its commands ----

  /** Kernel routing state and the `inet anixops` nftables table, if present. */
  datatype Host = Host(kernel: Kernel, nft: Option<seq<RouteRule>>)

  datatype Command =
    | NftLoad(marking: seq<RouteRule>)
    | NftDelete
    | Ip(command: IpCommand)
    | ReloadDnsmasq

  /** The host's answer to one command; None when the command reports an error. Loading a table
      that is already there appends to it. */
  function HostStep(h: Host, c: Command): Option<Host> {
    match c
    case NftLoad(marking) => Some(h.(nft := Some((if h.nft.Some? then h.nft.value else []) + marking)))
    case NftDelete => if h.nft.Some? then Some(h.(nft := None)) else None
    case Ip(command) => (match IpStep(h.kernel, command) case None => None case Some(k) => Some(h.(kernel := k)))
    case ReloadDnsmasq => Some(h)
  }

  /** Host after running commands until one fails, and how many succeeded. */
  datatype Progress = Progress(host: Host, done: nat)

  /** `faults(n)` says that the n-th command of the run meets an outage and does nothing. */
  function Exec(h: Host, cs: seq<Command>, faults: nat -> bool, at: nat): (p: Progress)
    ensures p.done <= |cs|
    decreases |cs|
  {
    if cs == [] || faults(at) || HostStep(h, cs[0]).None? then Progress(h, 0)
    else
      var rest := Exec(HostStep(h, cs[0]).value, cs[1..], faults, at + 1);
      Progress(rest.host, rest.done + 1)
  }

  // ---- what a configuration asks for ----

  predicate RuleBefore(a: RouteRule, b: RouteRule) {
    if a.preference == b.preference then StrLess(a.name, b.name) else a.preference < b.preference
  }

  predicate RuleAfter(a: RouteRule, b: RouteRule) { RuleBefore(b, a) }

  lemma RuleBeforeIsAnOrder()
    ensures StrictWeakOrder(RuleBefore) && StrictWeakOrder(RuleAfter)
  {
    hide StrLess;
    StrOrder();
  }

  /** Some order `sort.Slice` may leave the rules in; it is not a stable sort. */
  ghost predicate OrderOf(s: seq<RouteRule>, rules: seq<RouteRule>, less: (RouteRule, RouteRule) -> bool) {
    multiset(s) == multiset(rules) && Sorted(s, less)
  }

  /** `sortedRouteRules`. */
  method SortedRouteRules(rules: seq<RouteRule>, reverse: bool) returns (s: seq<RouteRule>)
    ensures OrderOf(s, rules, if reverse then RuleAfter else RuleBefore)
  {
    RuleBeforeIsAnOrder();
    StableSortSorts(rules, RuleBefore);
    StableSortSorts(rules, RuleAfter);
    s := StableSort(rules, if reverse then RuleAfter else RuleBefore);
  }

  function RuleKeyOf(r: RouteRule): RuleKey { RuleKey(V4, r.mark, r.table, r.preference) }

  function RouteKeyOf(net: Net, r: RouteRule): RouteKey {
    var dest := net.parseCIDR(r.destCIDR);
    RouteKey(V4, if dest.Some? then dest.value else DefaultCidr(V4), r.table)
  }

  function HopOfRule(r: RouteRule): Hop { Hop(r.gateway, r.iface) }

  /** The route commands of the first `k` rules: policy rule, then route. */
  function Up(net: Net, s: seq<RouteRule>, k: nat): (cs: seq<IpCommand>)
    requires k <= |s|
    ensures |cs| == 2 * k
  {
    if k == 0 then []
    else Up(net, s, k - 1) + [RuleAdd(RuleKeyOf(s[k - 1])),
                              RouteReplace(RouteKeyOf(net, s[k - 1]), HopOfRule(s[k - 1]))]
  }

  /** The rollback commands of the first `k` rules: route, then policy rule. */
  function Down(net: Net, t: seq<RouteRule>, k: nat): (cs: seq<IpCommand>)
    requires k <= |t|
    ensures |cs| == 2 * k
  {
    if k == 0 then []
    else Down(net, t, k - 1) + [RouteDel(RouteKeyOf(net, t[k - 1]), HopOfRule(t[k - 1])), RuleDel(RuleKeyOf(t[k - 1]))]
  }

  function Lift(cs: seq<IpCommand>): (r: seq<Command>)
    ensures |r| == |cs| && forall i :: 0 <= i < |cs| ==> r[i] == Ip(cs[i])
  {
    seq(|cs|, i requires 0 <= i < |cs| => Ip(cs[i]))
  }

  /** The rules that mark packets, in chain order. */
  function Marking(s: seq<RouteRule>): seq<RouteRule> {
    if s == [] then [] else if s[0].matchCIDR == "" then Marking(s[1..]) else [s[0]] + Marking(s[1..])
  }

  function ApplyCommands(net: Net, s: seq<RouteRule>): seq<Command> {
    [NftLoad(Marking(s))] + Lift(Up(net, s, |s|)) + [ReloadDnsmasq]
  }

  function RollbackCommands(net: Net, t: seq<RouteRule>): seq<Command> {
    [NftDelete] + Lift(Down(net, t, |t|)) + [ReloadDnsmasq]
  }

  /** `Config.RenderIPRouteCommands`, over the sorted rules. */
  method RenderIPRouteCommands(net: Net, s: seq<RouteRule>) returns (cs: seq<IpCommand>)
    ensures cs == Up(net, s, |s|)
  {
    cs := [];
    for k := 0 to |s|
      invariant cs == Up(net, s, k)
    {
      cs := cs + [RuleAdd(RuleKeyOf(s[k])), RouteReplace(RouteKeyOf(net, s[k]), HopOfRule(s[k]))];
    }
  }

  /** `Config.RenderIPRouteRollbackCommands`, over the rules sorted in reverse. */
  method RenderIPRouteRollbackCommands(net: Net, t: seq<RouteRule>) returns (cs: seq<IpCommand>)
    ensures cs == Down(net, t, |t|)
  {
    cs := [];
    for k := 0 to |t|
      invariant cs == Down(net, t, k)
    {
      cs := cs + [RouteDel(RouteKeyOf(net, t[k]), HopOfRule(t[k])), RuleDel(RuleKeyOf(t[k]))];
    }
  }

  lemma {:induction false} ExecAppend(h: Host, a: seq<Command>, b: seq<Command>, faults: nat -> bool, at: nat)
    ensures var p := Exec(h, a, faults, at);
            var q := Exec(p.host, b, faults, at + |a|);
            Exec(h, a + b, faults, at) == if p.done < |a| then p else Progress(q.host, q.done + |a|)
    decreases |a|
  {
    hide HostStep;
    if a == [] {
      assert a + b == b;
    } else {
      assert (a + b)[0] == a[0] && (a + b)[1..] == a[1..] + b;
      if !faults(at) && HostStep(h, a[0]).Some? {
        ExecAppend(HostStep(h, a[0]).value, a[1..], b, faults, at + 1);
      }
    }
  }

  // ---- the applier ----

  datatype ApplyResult = Applied | NothingApplied | LeftApplied | RolledBack(complete: bool)

  /** The command runner and the host it acts on. */
  class Runner {
    var host: Host
    var used: nat
    const faults: nat -> bool

    constructor (host: Host, faults: nat -> bool)
      ensures this.host == host && this.faults == faults && used == 0
    {
      this.host, this.faults, used := host, faults, 0;
    }

    method Run(c: Command) returns (ok: bool)
      modifies this
      ensures used == old(used) + 1
      ensures ok <==> !faults(old(used)) && HostStep(old(host), c).Some?
      ensures host == if ok then HostStep(old(host), c).value else old(host)
    {
      var answer := HostStep(host, c);
      ok := !faults(used) && answer.Some?;
      used := used + 1;
      if ok { host := answer.value; }
    }

    /** Runs the commands one by one and stops at the first error. */
    method RunAll(cs: seq<Command>) returns (ok: bool)
      modifies this
      ensures var p := Exec(old(host), cs, faults, old(used));
              host == p.host && (ok <==> p.done == |cs|) && used == old(used) + (if ok then p.done else p.done + 1)
    {
      ghost var h0, n0 := host, used;
      for k := 0 to |cs|
        invariant used == n0 + k
        invariant Exec(h0, cs, faults, n0).host == Exec(host, cs[k..], faults, used).host
        invariant Exec(h0, cs, faults, n0).done == Exec(host, cs[k..], faults, used).done + k
      {
        assert cs[k..][0] == cs[k] && cs[k..][1..] == cs[k + 1..];
        var done := Run(cs[k]);
        if !done { return false; }
      }
      return true;
    }

    /** `Config.Rollback`. */
    method Rollback(net: Net, rules: seq<RouteRule>) returns (ok: bool, ghost t: seq<RouteRule>)
      modifies this
      ensures OrderOf(t, rules, RuleAfter)
      ensures var p := Exec(old(host), RollbackCommands(net, t), faults, old(used));
              host == p.host && (ok <==> p.done == |RollbackCommands(net, t)|)
    {
      hide Exec;
      var sorted := SortedRouteRules(rules, true);
      t := sorted;
      var downs := RenderIPRouteRollbackCommands(net, sorted);
      ok := RunAll([NftDelete] + Lift(downs) + [ReloadDnsmasq]);
    }

    /** `Config.ApplyWithRollback` (or `Config.Apply` when `rollbackOnError` is false), once the
        configuration is valid and both files are written. */
    method Apply(net: Net, rules: seq<RouteRule>, rollbackOnError: bool)
      returns (r: ApplyResult, ghost s: seq<RouteRule>, ghost t: seq<RouteRule>)
      modifies this
      ensures OrderOf(s, rules, RuleBefore)
      ensures var a := Exec(old(host), ApplyCommands(net, s), faults, old(used));
              if a.done == |ApplyCommands(net, s)| then r == Applied && host == a.host
              else if a.done == 0 then r == NothingApplied && host == old(host)
              else if !rollbackOnError then r == LeftApplied && host == a.host
              else
                var b := Exec(a.host, RollbackCommands(net, t), faults, old(used) + a.done + 1);
                OrderOf(t, rules, RuleAfter) && host == b.host && r == RolledBack(b.done == |RollbackCommands(net, t)|)
    {
      var sorted := SortedRouteRules(rules, false);
      hide Exec, OrderOf, ApplyCommands, RollbackCommands;
      s, t := sorted, [];
      var applied, ok := RunForward(net, sorted);
      if ok { return Applied, s, t; }
      if !applied { return NothingApplied, s, t; }
      if !rollbackOnError { return LeftApplied, s, t; }
      var complete;
      complete, t := Rollback(net, rules);
      return RolledBack(complete), s, t;
    }

    /** The forward half of `apply`: load nftables, run the route commands, reload dnsmasq. */
    method RunForward(net: Net, s: seq<RouteRule>) returns (applied: bool, ok: bool)
      modifies this
      ensures var a := Exec(old(host), ApplyCommands(net, s), faults, old(used));
              && host == a.host && used == old(used) + (if ok then a.done else a.done + 1)
              && (ok <==> a.done == |ApplyCommands(net, s)|) && (applied <==> a.done > 0)
              && (!applied ==> host == old(host))
    {
      hide Exec, Marking, Up, Lift;
      var ups := RenderIPRouteCommands(net, s);
      ghost var load, routes, reload := [NftLoad(Marking(s))], Lift(ups), [ReloadDnsmasq];
      ApplyInThreeParts(host, load, routes, reload, faults, used);
      assert ApplyCommands(net, s) == load + routes + reload;
      applied := RunAll([NftLoad(Marking(s))]);
      if !applied { return false, false; }
      ok := RunAll(Lift(ups));
      if ok { ok := RunAll([ReloadDnsmasq]); }
    }
  }

  lemma ApplyInThreeParts(h: Host, load: seq<Command>, routes: seq<Command>, reload: seq<Command>, faults: nat -> bool,
                          at: nat)
    requires |load| == 1
    ensures var p := Exec(h, load, faults, at);
            var q := Exec(p.host, routes, faults, at + 1);
            var r := Exec(q.host, reload, faults, at + 1 + |routes|);
            (p.done == 0 ==> p.host == h) && Exec(h, load + routes + reload, faults, at) ==
              if p.done < 1 then Progress(h, 0)
              else if q.done < |routes| then Progress(q.host, q.done + 1)
              else Progress(r.host, r.done + 1 + |routes|)
  {
    ExecAppend(h, load + routes, reload, faults, at);
    ExecAppend(h, load, routes, faults, at);
  }
}
