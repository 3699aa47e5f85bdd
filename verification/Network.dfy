/** Addresses, prefixes and the part of the Linux kernel the gateway programs:
    fwmark policy rules and routing tables. */
module Network {
  import opened Text

  datatype Family = V4 | V6

  function Bits(f: Family): nat { if f == V4 then 32 else 128 }

  datatype Addr = Addr(family: Family, value: nat)

  /** A prefix as written: `base` may have bits below the prefix, which matching ignores. */
  datatype Cidr = Cidr(family: Family, base: nat, prefix: nat)

  /** `IPNet.Contains`. */
  predicate Contains(c: Cidr, a: Addr) {
    && c.family == a.family
    && c.prefix <= Bits(c.family)
    && a.value / Pow2(Bits(c.family) - c.prefix) == c.base / Pow2(Bits(c.family) - c.prefix)
  }

  /** The address part has bits set below the prefix. */
  predicate HostBits(c: Cidr) {
    c.prefix <= Bits(c.family) && c.base % Pow2(Bits(c.family) - c.prefix) != 0
  }

  /** The addresses of a prefix: as many as its free bits allow, from its base with those bits cleared. */
  lemma ContainsIsInterval(c: Cidr, a: Addr)
    requires c.prefix <= Bits(c.family)
    ensures var size := Pow2(Bits(c.family) - c.prefix);
            Contains(c, a) <==>
              a.family == c.family && c.base - c.base % size <= a.value < c.base - c.base % size + size
  {
    SameQuotient(a.value, c.base, Pow2(Bits(c.family) - c.prefix));
  }

  lemma SameQuotient(a: nat, b: nat, p: nat)
    requires p > 0
    ensures a / p == b / p <==> b - b % p <= a < b - b % p + p
  {
    var qa, qb := a / p, b / p;
    if qa < qb { Multiples(p, qa, qb); }
    if qb < qa { Multiples(p, qb, qa); }
    Division(a, p);
    Division(b, p);
  }

  lemma Division(a: nat, p: nat)
    requires p > 0
    ensures a == p * (a / p) + a % p && a % p < p
  {
  }

  lemma {:induction false} Multiples(p: nat, m: nat, n: nat)
    requires m < n
    ensures p * m + p <= p * n
  {
    if n == m + 1 {
      assert p * (m + 1) == p * m + p;
    } else {
      Multiples(p, m, n - 1);
      assert p * n == p * (n - 1) + p;
    }
  }

  function HostCidr(a: Addr): Cidr { Cidr(a.family, a.value, Bits(a.family)) }

  function DefaultCidr(f: Family): Cidr { Cidr(f, 0, 0) }

  lemma HostContainsOnlyItself(a: Addr, b: Addr)
    ensures Contains(HostCidr(a), b) <==> a == b
  {
    assert Pow2(0) == 1;
  }

  lemma DefaultHasNoHostBits(f: Family)
    ensures !HostBits(DefaultCidr(f))
  {
  }

  lemma SmallQuotient(a: nat, p: nat)
    requires a < p
    ensures a / p == 0
  {
  }

  lemma DefaultContainsAll(a: Addr)
    requires a.value < Pow2(Bits(a.family))
    ensures Contains(DefaultCidr(a.family), a)
  {
    var bits := Bits(a.family);
    SmallQuotient(a.value, Pow2(bits));
    SmallQuotient(0, Pow2(bits));
    assert Bits(DefaultCidr(a.family).family) - DefaultCidr(a.family).prefix == bits;
  }

  /** Library text functions, left uninterpreted: every theorem holds for all of them. */
  datatype Net = Net(
    trim: Trimmer,
    parseIP: string -> Option<Addr>,
    parseCIDR: string -> Option<Cidr>,
    showIP: Addr -> string,
    lower: string -> string,
    domainOk: string -> bool)

  /** The one fact about CIDR text the compiler relies on: IPv6 text is the text with a colon. */
  ghost predicate ColonMeansV6(net: Net) {
    forall s :: net.parseCIDR(s).Some? ==> (net.parseCIDR(s).value.family == V6 <==> ':' in s)
  }

  // ---- kernel state ----

  /** One `ip rule`: packets of this family carrying this mark use this table. */
  datatype RuleKey = RuleKey(family: Family, mark: int, table: int, preference: int)
  datatype RouteKey = RouteKey(family: Family, dest: Cidr, table: int)
  datatype Hop = Hop(gateway: string, iface: string)

  datatype Kernel = Kernel(rules: set<RuleKey>, routes: map<RouteKey, Hop>)

  datatype IpCommand =
    | RuleAdd(rule: RuleKey)
    | RuleDel(rule: RuleKey)
    | RouteReplace(route: RouteKey, hop: Hop)
    | RouteDel(route: RouteKey, hop: Hop)

  /** What the kernel does with one command; None when it answers with an error. */
  function IpStep(k: Kernel, c: IpCommand): Option<Kernel> {
    match c
    case RuleAdd(r) => if r in k.rules then None else Some(k.(rules := k.rules + {r}))
    case RuleDel(r) => if r in k.rules then Some(k.(rules := k.rules - {r})) else None
    case RouteReplace(key, hop) => if HostBits(key.dest) then None else Some(k.(routes := k.routes[key := hop]))
    case RouteDel(key, hop) =>
      if key in k.routes && k.routes[key] == hop then Some(k.(routes := k.routes - {key})) else None
  }

  function IpRun(k: Kernel, cs: seq<IpCommand>): Option<Kernel>
    decreases |cs|
  {
    if cs == [] then Some(k)
    else match IpStep(k, cs[0])
      case None => None
      case Some(k') => IpRun(k', cs[1..])
  }

  lemma {:induction false} IpRunAppend(k: Kernel, a: seq<IpCommand>, b: seq<IpCommand>)
    ensures IpRun(k, a + b) == if IpRun(k, a).None? then None else IpRun(IpRun(k, a).value, b)
    decreases |a|
  {
    if a == [] {
      assert a + b == b;
    } else {
      assert (a + b)[1..] == a[1..] + b;
      if IpStep(k, a[0]).Some? {
        IpRunAppend(IpStep(k, a[0]).value, a[1..], b);
      }
    }
  }

  /** `key` is the longest-prefix route of the table for this destination. */
  ghost predicate Best(k: Kernel, table: int, dst: Addr, key: RouteKey) {
    && key in k.routes && OnPath(table, dst, key)
    && forall other :: other in k.routes && OnPath(table, dst, other) ==> other.dest.prefix <= key.dest.prefix
  }

  predicate OnPath(table: int, dst: Addr, key: RouteKey) {
    key.family == dst.family && key.table == table && Contains(key.dest, dst)
  }

  predicate Selected(k: Kernel, mark: int, dst: Addr, r: RuleKey) {
    r in k.rules && r.family == dst.family && r.mark == mark
  }

  /** A packet with this mark leaves through `hop`: the lowest-preference rule that selects it
      and whose table holds a route decides. */
  ghost predicate Forwards(k: Kernel, mark: int, dst: Addr, hop: Hop) {
    exists r, key ::
      && Selected(k, mark, dst, r) && Best(k, r.table, dst, key) && k.routes[key] == hop
      && forall r2, key2 :: Selected(k, mark, dst, r2) && Best(k, r2.table, dst, key2) ==> r.preference <= r2.preference
  }

  /** The packet leaves through `via` and nowhere else. */
  ghost predicate OnlyVia(k: Kernel, mark: int, dst: Addr, via: Hop) {
    forall hop :: Forwards(k, mark, dst, hop) <==> hop == via
  }

  /** With one selecting rule whose table holds just a default route, the outcome is that route. */
  lemma SingleRuleForwards(k: Kernel, mark: int, dst: Addr, r: RuleKey, hop: Hop)
    requires Selected(k, mark, dst, r)
    requires forall r2 :: Selected(k, mark, dst, r2) ==> r2 == r
    requires dst.value < Pow2(Bits(dst.family))
    requires RouteKey(dst.family, DefaultCidr(dst.family), r.table) in k.routes
    requires k.routes[RouteKey(dst.family, DefaultCidr(dst.family), r.table)] == hop
    requires forall key :: key in k.routes && key.family == dst.family && key.table == r.table ==>
               key.dest == DefaultCidr(dst.family)
    ensures forall h :: Forwards(k, mark, dst, h) <==> h == hop
  {
    var key := RouteKey(dst.family, DefaultCidr(dst.family), r.table);
    DefaultContainsAll(dst);
    assert Best(k, r.table, dst, key);
    assert forall key2 :: Best(k, r.table, dst, key2) ==> key2 == key;
    assert Forwards(k, mark, dst, hop);
  }
}
