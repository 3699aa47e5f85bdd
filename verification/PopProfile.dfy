/** The POP profile of the control contract and its validation. */
module PopProfile {
  import opened Text
  import opened Network

  type Port = p: int | 0 <= p < 0x1_0000
  datatype PortRange = PortRange(start: Port, end: Port)

  /** The L4 protocol of a selector or of a packet; in a selector `Any` is the empty string. */
  datatype Protocol = Any | Tcp | Udp | Other(name: string)

  datatype RouteSelector = RouteSelector(
    sourceCIDR: string, destinationCIDR: string, domainSuffix: string,
    trafficClass: string, protocol: Protocol, ports: Option<PortRange>)
  datatype ServiceChain = ServiceChain(id: string, hops: seq<string>, returnHops: seq<string>)
  datatype RoutePolicy = RoutePolicy(id: string, selector: RouteSelector, chain: ServiceChain, directFallback: bool)
  datatype Profile = Profile(id: string, principalID: string, routes: seq<RoutePolicy>)

  predicate Identifier(net: Net, s: string) { net.trim(s) != "" }

  predicate ValidPorts(p: PortRange) { p.start != 0 && p.end != 0 && p.start <= p.end }

  predicate ValidSelector(net: Net, s: RouteSelector) {
    && (net.trim(s.sourceCIDR) != "" ==> net.parseCIDR(s.sourceCIDR).Some?)
    && (net.trim(s.destinationCIDR) != "" ==> net.parseCIDR(s.destinationCIDR).Some?)
    && (net.trim(s.domainSuffix) != "" ==> net.domainOk(s.domainSuffix))
    && !s.protocol.Other?
    && (s.ports.Some? ==> !s.protocol.Any? && ValidPorts(s.ports.value))
    && (net.trim(s.sourceCIDR) != "" || net.trim(s.destinationCIDR) != "" || net.trim(s.domainSuffix) != ""
        || net.trim(s.trafficClass) != "" || !s.protocol.Any? || s.ports.Some?)
  }

  ghost predicate DistinctTrimmed(net: Net, s: seq<string>) {
    forall i, j :: 0 <= i < j < |s| ==> net.trim(s[i]) != net.trim(s[j])
  }

  ghost predicate ValidHops(net: Net, hops: seq<string>) {
    (forall i :: 0 <= i < |hops| ==> Identifier(net, hops[i])) && DistinctTrimmed(net, hops)
  }

  ghost predicate ValidPolicy(net: Net, p: RoutePolicy) {
    && Identifier(net, p.id) && !p.directFallback && ValidSelector(net, p.selector)
    && Identifier(net, p.chain.id) && p.chain.hops != []
    && ValidHops(net, p.chain.hops) && ValidHops(net, p.chain.returnHops)
  }

  ghost predicate ValidProfile(net: Net, p: Profile) {
    && Identifier(net, p.id) && Identifier(net, p.principalID) && p.routes != []
    && (forall i :: 0 <= i < |p.routes| ==> ValidPolicy(net, p.routes[i]))
    && (forall i, j :: 0 <= i < j < |p.routes| ==> net.trim(p.routes[i].id) != net.trim(p.routes[j].id))
  }

  /** `validateHopList`: one pass with a `seen` set decides pairwise distinctness. */
  method ValidateHopList(net: Net, hops: seq<string>) returns (ok: bool)
    ensures ok <==> ValidHops(net, hops)
  {
    var seen: set<string> := {};
    for k := 0 to |hops|
      invariant forall x :: x in seen <==> exists i :: 0 <= i < k && x == net.trim(hops[i])
      invariant forall i :: 0 <= i < k ==> Identifier(net, hops[i])
      invariant forall i, j :: 0 <= i < j < k ==> net.trim(hops[i]) != net.trim(hops[j])
    {
      if !Identifier(net, hops[k]) { return false; }
      var normalized := net.trim(hops[k]);
      if normalized in seen { return false; }
      seen := seen + {normalized};
    }
    return true;
  }

  method ValidatePolicy(net: Net, p: RoutePolicy) returns (ok: bool)
    ensures ok <==> ValidPolicy(net, p)
  {
    if !Identifier(net, p.id) || p.directFallback || !ValidSelector(net, p.selector)
       || !Identifier(net, p.chain.id) || p.chain.hops == [] { return false; }
    ok := ValidateHopList(net, p.chain.hops);
    if ok && |p.chain.returnHops| > 0 { ok := ValidateHopList(net, p.chain.returnHops); }
  }

  /** `PopProfile.Validate`. */
  method ValidateProfile(net: Net, p: Profile) returns (ok: bool)
    ensures ok <==> ValidProfile(net, p)
  {
    hide ValidPolicy;
    if !Identifier(net, p.id) || !Identifier(net, p.principalID) || p.routes == [] { return false; }
    var seen: set<string> := {};
    for k := 0 to |p.routes|
      invariant forall i :: 0 <= i < k ==> net.trim(p.routes[i].id) in seen
      invariant forall x :: x in seen ==> exists i :: 0 <= i < k && x == net.trim(p.routes[i].id)
      invariant forall i :: 0 <= i < k ==> ValidPolicy(net, p.routes[i])
      invariant forall i, j :: 0 <= i < j < k ==> net.trim(p.routes[i].id) != net.trim(p.routes[j].id)
    {
      var valid := ValidatePolicy(net, p.routes[k]);
      if !valid { return false; }
      var id := net.trim(p.routes[k].id);
      if id in seen {
        ghost var i :| 0 <= i < k && id == net.trim(p.routes[i].id);
        return false;
      }
      seen := seen + {id};
    }
    return true;
  }
}
