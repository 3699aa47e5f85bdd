/** When a failed application is undone: exactly how much of the host the rollback restores. */
module GatewayRollback {
  import opened Text
  import opened Sorting
  import opened Network
  import opened Gateway

  // ---- running commands, position by position ----

  lemma {:induction false} UpAt(net: Net, s: seq<RouteRule>, n: nat, i: nat)
    requires i < n <= |s|
    ensures Up(net, s, n)[2 * i] == RuleAdd(RuleKeyOf(s[i]))
    ensures Up(net, s, n)[2 * i + 1] == RouteReplace(RouteKeyOf(net, s[i]), HopOfRule(s[i]))
  {
    if i < n - 1 { UpAt(net, s, n - 1, i); }
  }

  lemma {:induction false} DownAt(net: Net, t: seq<RouteRule>, n: nat, i: nat)
    requires i < n <= |t|
    ensures Down(net, t, n)[2 * i] == RouteDel(RouteKeyOf(net, t[i]), HopOfRule(t[i]))
    ensures Down(net, t, n)[2 * i + 1] == RuleDel(RuleKeyOf(t[i]))
  {
    if i < n - 1 { DownAt(net, t, n - 1, i); }
  }

  lemma RunOneMore(k: Kernel, cs: seq<IpCommand>, c: nat)
    requires c < |cs|
    ensures IpRun(k, cs[..c + 1]) == if IpRun(k, cs[..c]).None? then None else IpStep(IpRun(k, cs[..c]).value, cs[c])
  {
    IpRunAppend(k, cs[..c], [cs[c]]);
    assert cs[..c + 1] == cs[..c] + [cs[c]];
    if IpRun(k, cs[..c]).Some? {
      var k' := IpRun(k, cs[..c]).value;
      assert [cs[c]][1..] == [];
      assert IpRun(k', [cs[c]]) == IpStep(k', cs[c]);
    }
  }

  lemma {:induction false} PrefixRuns(k: Kernel, cs: seq<IpCommand>, a: nat, b: nat)
    requires a <= b <= |cs| && IpRun(k, cs[..b]).Some?
    ensures IpRun(k, cs[..a]).Some?
    decreases b - a
  {
    if a < b {
      RunOneMore(k, cs, b - 1);
      PrefixRuns(k, cs, a, b - 1);
    }
  }

  // ---- the way up ----

  function RouteKeys(net: Net): RouteRule -> RouteKey { (r: RouteRule) => RouteKeyOf(net, r) }

  function RuleKeys(): RouteRule -> RuleKey { (r: RouteRule) => RuleKeyOf(r) }

  /** Rules writing the same route write the same next hop. */
  ghost predicate HopsAgree(net: Net, s: seq<RouteRule>) {
    forall i, j :: 0 <= i < j < |s| && RouteKeyOf(net, s[i]) == RouteKeyOf(net, s[j]) ==>
      HopOfRule(s[i]) == HopOfRule(s[j])
  }

  lemma DistinctHopsAgree(net: Net, s: seq<RouteRule>)
    requires DistinctBy(s, RouteKeys(net))
    ensures HopsAgree(net, s)
  {
    forall i, j | 0 <= i < j < |s| ensures RouteKeyOf(net, s[i]) != RouteKeyOf(net, s[j]) {
      assert RouteKeys(net)(s[i]) != RouteKeys(net)(s[j]);
    }
  }

  /** The rules after `j` route commands. */
  ghost predicate RulesUp(k0: Kernel, s: seq<RouteRule>, j: nat, k: Kernel) {
    forall r :: r in k.rules <==> r in k0.rules || exists i :: 0 <= i < |s| && 2 * i < j && RuleKeyOf(s[i]) == r
  }

  /** The routes after `j` route commands: new ones only where a rule's route command already ran. */
  ghost predicate RoutesUp(net: Net, k0: Kernel, s: seq<RouteRule>, j: nat, k: Kernel) {
    && (forall key :: key in k.routes <==>
          key in k0.routes || exists i :: 0 <= i < |s| && 2 * i + 1 < j && RouteKeyOf(net, s[i]) == key)
    && (HopsAgree(net, s) ==>
          (forall i :: 0 <= i < |s| && 2 * i + 1 < j ==> k.routes[RouteKeyOf(net, s[i])] == HopOfRule(s[i])))
    && (forall key :: key in k0.routes ==> k.routes[key] == k0.routes[key])
  }

  /** None of the configuration's rules, routes or its nftables table is there yet. */
  ghost predicate Fresh(net: Net, h: Host, rules: seq<RouteRule>) {
    h.nft.None? && forall r :: r in rules ==> RuleKeyOf(r) !in h.kernel.rules && RouteKeyOf(net, r) !in h.kernel.routes
  }

  ghost predicate FreshRoutes(net: Net, k: Kernel, s: seq<RouteRule>) {
    forall i :: 0 <= i < |s| ==> RouteKeyOf(net, s[i]) !in k.routes
  }

  lemma {:induction false} UpPrefix(net: Net, k0: Kernel, s: seq<RouteRule>, j: nat)
    requires j <= 2 * |s| && FreshRoutes(net, k0, s) && IpRun(k0, Up(net, s, |s|)[..j]).Some?
    ensures RulesUp(k0, s, j, IpRun(k0, Up(net, s, |s|)[..j]).value)
    ensures RoutesUp(net, k0, s, j, IpRun(k0, Up(net, s, |s|)[..j]).value)
  {
    hide Up, RulesUp, RoutesUp, FreshRoutes, RuleKeyOf, RouteKeyOf;
    var cs := Up(net, s, |s|);
    if j == 0 {
      assert cs[..0] == [];
      UpStart(net, k0, s);
    } else {
      RunOneMore(k0, cs, j - 1);
      UpPrefix(net, k0, s, j - 1);
      var k, k' := IpRun(k0, cs[..j - 1]).value, IpRun(k0, cs[..j]).value;
      UpAt(net, s, |s|, (j - 1) / 2);
      if j % 2 == 1 {
        RuleGoesUp(net, k0, s, (j - 1) / 2, k, k');
      } else {
        RouteGoesUp(net, k0, s, (j - 1) / 2, k, k');
      }
    }
  }

  /** On a host without these policy rules the route commands all succeed, unless a destination has host bits. */
  lemma {:induction false} UpRuns(net: Net, k0: Kernel, s: seq<RouteRule>, j: nat)
    requires j <= 2 * |s| && FreshRoutes(net, k0, s) && DistinctBy(s, RuleKeys())
    requires forall i :: 0 <= i < |s| ==> RuleKeyOf(s[i]) !in k0.rules && !HostBits(RouteKeyOf(net, s[i]).dest)
    ensures IpRun(k0, Up(net, s, |s|)[..j]).Some?
  {
    hide Up, RoutesUp, FreshRoutes, RuleKeyOf, RouteKeyOf, HostBits;
    var cs := Up(net, s, |s|);
    if j == 0 {
      assert cs[..0] == [];
    } else {
      var i := (j - 1) / 2;
      UpRuns(net, k0, s, j - 1);
      UpPrefix(net, k0, s, j - 1);
      RunOneMore(k0, cs, j - 1);
      UpAt(net, s, |s|, i);
      if j % 2 == 1 {
        assert forall x :: 0 <= x < |s| && 2 * x < j - 1 ==> RuleKeys()(s[x]) != RuleKeys()(s[i]);
      }
    }
  }

  lemma UpStart(net: Net, k0: Kernel, s: seq<RouteRule>)
    ensures RulesUp(k0, s, 0, k0) && RoutesUp(net, k0, s, 0, k0)
  {
  }

  lemma RuleGoesUp(net: Net, k0: Kernel, s: seq<RouteRule>, i: nat, k: Kernel, k': Kernel)
    requires i < |s| && RulesUp(k0, s, 2 * i, k) && RoutesUp(net, k0, s, 2 * i, k)
    requires IpStep(k, RuleAdd(RuleKeyOf(s[i]))) == Some(k')
    ensures RulesUp(k0, s, 2 * i + 1, k') && RoutesUp(net, k0, s, 2 * i + 1, k')
  {
    assert RoutesUp(net, k0, s, 2 * i + 1, k') by {
      hide RulesUp;
      assert k'.routes == k.routes;
      assert forall x :: 2 * x + 1 < 2 * i + 1 <==> 2 * x + 1 < 2 * i;
    }
    hide RoutesUp, RuleKeyOf;
    assert forall x :: 2 * x < 2 * i + 1 <==> x < i || x == i;
  }

  lemma RouteGoesUp(net: Net, k0: Kernel, s: seq<RouteRule>, i: nat, k: Kernel, k': Kernel)
    requires i < |s| && RulesUp(k0, s, 2 * i + 1, k) && RoutesUp(net, k0, s, 2 * i + 1, k) && FreshRoutes(net, k0, s)
    requires IpStep(k, RouteReplace(RouteKeyOf(net, s[i]), HopOfRule(s[i]))) == Some(k')
    ensures RulesUp(k0, s, 2 * i + 2, k') && RoutesUp(net, k0, s, 2 * i + 2, k')
  {
    assert RulesUp(k0, s, 2 * i + 2, k') by {
      hide RoutesUp, FreshRoutes, RuleKeyOf, HostBits;
      assert k'.rules == k.rules;
      assert forall x :: 2 * x < 2 * i + 2 <==> 2 * x < 2 * i + 1;
    }
    hide RulesUp, RouteKeyOf, HopOfRule, HostBits;
    assert forall x :: 2 * x + 1 < 2 * i + 2 <==> 2 * x + 1 < 2 * i + 1 || x == i;
  }

  // ---- the way down ----

  /** Route deletions succeed only on distinct routes that were there. */
  ghost predicate RoutesGone(net: Net, k: Kernel, t: seq<RouteRule>, m: nat, k': Kernel)
    requires m <= |t|
  {
    && (forall key :: key in k'.routes ==> key in k.routes)
    && (forall i :: 0 <= i < m ==> RouteKeyOf(net, t[i]) in k.routes && RouteKeyOf(net, t[i]) !in k'.routes)
    && (forall i, j :: 0 <= i < j < m ==> RouteKeyOf(net, t[i]) != RouteKeyOf(net, t[j]))
  }

  lemma {:induction false} DeletionsAreDistinct(net: Net, k: Kernel, t: seq<RouteRule>, m: nat)
    requires m <= |t| && IpRun(k, Down(net, t, |t|)[..2 * m]).Some?
    ensures RoutesGone(net, k, t, m, IpRun(k, Down(net, t, |t|)[..2 * m]).value)
  {
    hide Down, RuleKeyOf, RouteKeyOf, IpRun;
    var cs := Down(net, t, |t|);
    if m == 0 {
      assert cs[..0] == [] && IpRun(k, []) == Some(k) by { RunNothing(k); }
    } else {
      RunOneMore(k, cs, 2 * m - 1);
      RunOneMore(k, cs, 2 * m - 2);
      DeletionsAreDistinct(net, k, t, m - 1);
      DownAt(net, t, |t|, m - 1);
    }
  }

  lemma RunNothing(k: Kernel)
    ensures IpRun(k, []) == Some(k)
  {
  }

  /** Rules left after `c` rollback commands. */
  ghost predicate RulesDown(k0: Kernel, t: seq<RouteRule>, c: nat, k: Kernel) {
    forall r :: r in k.rules <==> r in k0.rules || exists i :: 0 <= i < |t| && c <= 2 * i + 1 && RuleKeyOf(t[i]) == r
  }

  ghost predicate RoutesDown(net: Net, k0: Kernel, t: seq<RouteRule>, c: nat, k: Kernel) {
    && (forall key :: key in k.routes <==>
          key in k0.routes || exists i :: 0 <= i < |t| && c <= 2 * i && RouteKeyOf(net, t[i]) == key)
    && (forall i :: 0 <= i < |t| && c <= 2 * i ==> k.routes[RouteKeyOf(net, t[i])] == HopOfRule(t[i]))
    && (forall key :: key in k0.routes ==> k.routes[key] == k0.routes[key])
  }

  lemma RouteGoesDown(net: Net, k0: Kernel, t: seq<RouteRule>, i: nat, k: Kernel)
    requires i < |t| && DistinctBy(t, RouteKeys(net)) && FreshRoutes(net, k0, t)
    requires RulesDown(k0, t, 2 * i, k) && RoutesDown(net, k0, t, 2 * i, k)
    ensures var step := IpStep(k, RouteDel(RouteKeyOf(net, t[i]), HopOfRule(t[i])));
            step.Some? && RulesDown(k0, t, 2 * i + 1, step.value) && RoutesDown(net, k0, t, 2 * i + 1, step.value)
  {
    var step := IpStep(k, RouteDel(RouteKeyOf(net, t[i]), HopOfRule(t[i])));
    hide HostBits;
    assert step.Some? by { hide RulesDown, RouteKeyOf; }
    assert RulesDown(k0, t, 2 * i + 1, step.value) by {
      hide RoutesDown, FreshRoutes, RuleKeyOf;
      assert step.value.rules == k.rules;
      assert forall x :: 2 * i + 1 <= 2 * x + 1 <==> 2 * i <= 2 * x + 1;
    }
    DeletedRoute(net, k0, t, i, k, step.value);
  }

  lemma DeletedRoute(net: Net, k0: Kernel, t: seq<RouteRule>, i: nat, k: Kernel, k': Kernel)
    requires i < |t| && DistinctBy(t, RouteKeys(net)) && FreshRoutes(net, k0, t)
    requires RoutesDown(net, k0, t, 2 * i, k) && k'.routes == k.routes - {RouteKeyOf(net, t[i])}
    ensures RoutesDown(net, k0, t, 2 * i + 1, k')
  {
    hide RouteKeyOf, HopOfRule;
    assert forall x :: 0 <= x < |t| && x != i ==> RouteKeys(net)(t[x]) != RouteKeys(net)(t[i]);
    assert forall x :: 2 * i + 1 <= 2 * x <==> 2 * i <= 2 * x && x != i;
  }

  lemma RuleGoesDown(net: Net, k0: Kernel, t: seq<RouteRule>, i: nat, k: Kernel)
    requires i < |t| && DistinctBy(t, RuleKeys()) && forall x :: 0 <= x < |t| ==> RuleKeyOf(t[x]) !in k0.rules
    requires RulesDown(k0, t, 2 * i + 1, k) && RoutesDown(net, k0, t, 2 * i + 1, k)
    ensures var step := IpStep(k, RuleDel(RuleKeyOf(t[i])));
            step.Some? && RulesDown(k0, t, 2 * i + 2, step.value) && RoutesDown(net, k0, t, 2 * i + 2, step.value)
  {
    var step := IpStep(k, RuleDel(RuleKeyOf(t[i])));
    hide HostBits;
    assert step.Some? by { hide RoutesDown, RuleKeyOf; }
    var k' := step.value;
    assert RoutesDown(net, k0, t, 2 * i + 2, k') by {
      hide RulesDown, RouteKeyOf, HopOfRule;
      assert k'.routes == k.routes;
      assert forall x :: 2 * i + 2 <= 2 * x <==> 2 * i + 1 <= 2 * x;
    }
    hide RoutesDown, RuleKeyOf;
    assert forall x :: 2 * i + 2 <= 2 * x + 1 <==> 2 * i + 1 <= 2 * x + 1 && x != i;
    assert forall x :: 0 <= x < |t| && x != i ==> RuleKeys()(t[x]) != RuleKeys()(t[i]);
  }

  lemma {:induction false} DownPrefix(net: Net, k0: Kernel, t: seq<RouteRule>, k: Kernel, c: nat)
    requires c <= 2 * |t| && DistinctBy(t, RouteKeys(net)) && DistinctBy(t, RuleKeys()) && FreshRoutes(net, k0, t)
    requires forall x :: 0 <= x < |t| ==> RuleKeyOf(t[x]) !in k0.rules
    requires RulesDown(k0, t, 0, k) && RoutesDown(net, k0, t, 0, k)
    ensures IpRun(k, Down(net, t, |t|)[..c]).Some?
    ensures var k' := IpRun(k, Down(net, t, |t|)[..c]).value; RulesDown(k0, t, c, k') && RoutesDown(net, k0, t, c, k')
  {
    hide Down, RulesDown, RoutesDown, FreshRoutes, RuleKeyOf, RouteKeyOf, IpRun, DistinctBy;
    var cs := Down(net, t, |t|);
    if c == 0 {
      assert cs[..0] == [];
      RunNothing(k);
    } else {
      RunOneMore(k, cs, c - 1);
      DownPrefix(net, k0, t, k, c - 1);
      var before := IpRun(k, cs[..c - 1]).value;
      DownAt(net, t, |t|, (c - 1) / 2);
      if c % 2 == 1 {
        RouteGoesDown(net, k0, t, (c - 1) / 2, before);
      } else {
        RuleGoesDown(net, k0, t, (c - 1) / 2, before);
      }
    }
  }

  lemma AllDown(net: Net, k0: Kernel, t: seq<RouteRule>, k: Kernel)
    requires RulesDown(k0, t, 2 * |t|, k) && RoutesDown(net, k0, t, 2 * |t|, k)
    ensures k == k0
  {
    assert k.rules == k0.rules by { hide RoutesDown; }
    assert k.routes == k0.routes by { hide RulesDown; assert k.routes.Keys == k0.routes.Keys; }
  }

  // ---- up, then down ----

  lemma RulesTurn(k0: Kernel, s: seq<RouteRule>, t: seq<RouteRule>, k: Kernel)
    requires (forall x :: x in s <==> x in t) && RulesUp(k0, s, 2 * |s|, k)
    ensures RulesDown(k0, t, 0, k)
  {
    hide RuleKeyOf;
    forall r ensures r in k.rules <==>
      r in k0.rules || exists i :: 0 <= i < |t| && 0 <= 2 * i + 1 && RuleKeyOf(t[i]) == r {
      if r in k.rules && r !in k0.rules {
        var i :| 0 <= i < |s| && 2 * i < 2 * |s| && RuleKeyOf(s[i]) == r;
        assert s[i] in t;
        var j :| 0 <= j < |t| && t[j] == s[i];
      }
      if i :| 0 <= i < |t| && RuleKeyOf(t[i]) == r {
        assert t[i] in s;
        var j :| 0 <= j < |s| && s[j] == t[i];
        assert 2 * j < 2 * |s|;
      }
    }
  }

  lemma RoutesTurn(net: Net, k0: Kernel, s: seq<RouteRule>, t: seq<RouteRule>, k: Kernel)
    requires (forall x :: x in s <==> x in t) && RoutesUp(net, k0, s, 2 * |s|, k) && DistinctBy(s, RouteKeys(net))
    ensures RoutesDown(net, k0, t, 0, k)
  {
    DistinctHopsAgree(net, s);
    hide RouteKeyOf, HopOfRule, DistinctBy, RouteKeys, HopsAgree;
    forall key ensures key in k.routes <==>
      key in k0.routes || exists i :: 0 <= i < |t| && 0 <= 2 * i && RouteKeyOf(net, t[i]) == key {
      if key in k.routes && key !in k0.routes {
        var i :| 0 <= i < |s| && 2 * i + 1 < 2 * |s| && RouteKeyOf(net, s[i]) == key;
        assert s[i] in t;
        var j :| 0 <= j < |t| && t[j] == s[i];
      }
      if i :| 0 <= i < |t| && RouteKeyOf(net, t[i]) == key {
        assert t[i] in s;
        var j :| 0 <= j < |s| && s[j] == t[i];
        assert 2 * j + 1 < 2 * |s|;
      }
    }
    forall i | 0 <= i < |t| ensures k.routes[RouteKeyOf(net, t[i])] == HopOfRule(t[i]) {
      assert t[i] in s;
      var j :| 0 <= j < |s| && s[j] == t[i];
      assert 2 * j + 1 < 2 * |s|;
    }
  }

  /** The rules of one configuration in two orders, on a host that has none of them. */
  ghost predicate Configured(net: Net, k0: Kernel, s: seq<RouteRule>, t: seq<RouteRule>) {
    && multiset(s) == multiset(t) && DistinctBy(s, RuleKeys())
    && (forall r :: r in s ==> RuleKeyOf(r) !in k0.rules && RouteKeyOf(net, r) !in k0.routes)
  }

  lemma ConfiguredOrders(net: Net, k0: Kernel, s: seq<RouteRule>, t: seq<RouteRule>)
    requires Configured(net, k0, s, t)
    ensures |s| == |t| && (forall x :: x in s <==> x in t) && DistinctBy(t, RuleKeys())
    ensures FreshRoutes(net, k0, s) && FreshRoutes(net, k0, t)
    ensures forall x :: 0 <= x < |t| ==> RuleKeyOf(t[x]) !in k0.rules
    ensures DistinctBy(s, RouteKeys(net)) ==> DistinctBy(t, RouteKeys(net))
  {
    hide RouteKeyOf, RuleKeyOf, RouteKeys, RuleKeys, DistinctBy;
    SameMembers(s, t);
    PermutationKeepsDistinct(s, t, RuleKeys());
    if DistinctBy(s, RouteKeys(net)) { PermutationKeepsDistinct(s, t, RouteKeys(net)); }
  }

  /** Everything was applied and the routes are distinct: the deletions are an exact inverse. */
  lemma FullyUndone(net: Net, k0: Kernel, s: seq<RouteRule>, t: seq<RouteRule>)
    requires Configured(net, k0, s, t) && DistinctBy(s, RouteKeys(net)) && IpRun(k0, Up(net, s, |s|)).Some?
    ensures IpRun(IpRun(k0, Up(net, s, |s|)).value, Down(net, t, |t|)) == Some(k0)
  {
    hide Configured, Up, Down, DistinctBy, RouteKeyOf, RuleKeyOf, RulesUp, RoutesUp, RulesDown, RoutesDown, FreshRoutes;
    hide RouteKeys, RuleKeys;
    ConfiguredOrders(net, k0, s, t);
    assert Up(net, s, |s|)[..2 * |s|] == Up(net, s, |s|) && Down(net, t, |t|)[..2 * |t|] == Down(net, t, |t|);
    var k := IpRun(k0, Up(net, s, |s|)).value;
    UpPrefix(net, k0, s, 2 * |s|);
    RulesTurn(k0, s, t, k);
    RoutesTurn(net, k0, s, t, k);
    DownPrefix(net, k0, t, k, 2 * |t|);
    AllDown(net, k0, t, IpRun(k, Down(net, t, |t|)).value);
  }

  // ---- stopping anywhere ----

  /** Deletion stops after `m` commands: at the end, or because the next one fails. */
  ghost predicate StopsAfter(net: Net, k: Kernel, t: seq<RouteRule>, m: nat) {
    && m <= 2 * |t| && IpRun(k, Down(net, t, |t|)[..m]).Some?
    && (m == 2 * |t| || IpRun(k, Down(net, t, |t|)[..m + 1]).None?)
  }

  /** The kernel after `j` applied route commands. */
  ghost predicate AppliedTo(net: Net, k0: Kernel, s: seq<RouteRule>, j: nat, k: Kernel) {
    j <= 2 * |s| && IpRun(k0, Up(net, s, |s|)[..j]) == Some(k)
  }

  /** The kernel `m` deletions leave of `k`. */
  ghost function Left(net: Net, k: Kernel, t: seq<RouteRule>, m: nat): Kernel
    requires StopsAfter(net, k, t, m)
  {
    IpRun(k, Down(net, t, |t|)[..m]).value
  }

  /** `j` applied commands can be undone: they are whole rules, with routes of their own, and these
      rules come first in the order of deletion. */
  ghost predicate Reversible(net: Net, s: seq<RouteRule>, t: seq<RouteRule>, j: nat)
    requires |s| == |t| && j <= 2 * |s|
  {
    j % 2 == 0 && multiset(t[..j / 2]) == multiset(s[..j / 2]) && DistinctBy(s[..j / 2], RouteKeys(net))
  }

  lemma {:induction false} UpTake(net: Net, s: seq<RouteRule>, n: nat, h: nat)
    requires h <= n <= |s|
    ensures Up(net, s, n)[..2 * h] == Up(net, s[..h], h)
    decreases n - h
  {
    if h < n {
      UpTake(net, s, n - 1, h);
      assert Up(net, s, n)[..2 * h] == Up(net, s, n - 1)[..2 * h];
    } else {
      UpLocal(net, s, h, h);
    }
  }

  lemma {:induction false} UpLocal(net: Net, s: seq<RouteRule>, h: nat, n: nat)
    requires n <= h <= |s|
    ensures Up(net, s, n) == Up(net, s[..h], n)
  {
    if n > 0 { UpLocal(net, s, h, n - 1); }
  }

  lemma {:induction false} DownTake(net: Net, t: seq<RouteRule>, n: nat, h: nat)
    requires h <= n <= |t|
    ensures Down(net, t, n)[..2 * h] == Down(net, t[..h], h)
    decreases n - h
  {
    if h < n {
      DownTake(net, t, n - 1, h);
      assert Down(net, t, n)[..2 * h] == Down(net, t, n - 1)[..2 * h];
    } else {
      DownLocal(net, t, h, h);
    }
  }

  lemma {:induction false} DownLocal(net: Net, t: seq<RouteRule>, h: nat, n: nat)
    requires n <= h <= |t|
    ensures Down(net, t, n) == Down(net, t[..h], n)
  {
    if n > 0 { DownLocal(net, t, h, n - 1); }
  }

  lemma ConfiguredPrefix(net: Net, k0: Kernel, s: seq<RouteRule>, t: seq<RouteRule>, h: nat)
    requires Configured(net, k0, s, t) && h <= |s| && |s| == |t| && multiset(t[..h]) == multiset(s[..h])
    ensures Configured(net, k0, s[..h], t[..h])
  {
    hide RouteKeyOf, RuleKeyOf, RuleKeys;
  }

  /** Reversible commands are undone exactly, and then the next deletion fails. */
  lemma ReversibleIsUndone(net: Net, k0: Kernel, s: seq<RouteRule>, t: seq<RouteRule>, j: nat, k: Kernel, m: nat)
    requires Configured(net, k0, s, t) && |s| == |t| && AppliedTo(net, k0, s, j, k) && StopsAfter(net, k, t, m)
    requires Reversible(net, s, t, j)
    ensures Left(net, k, t, m) == k0
  {
    hide Configured, Up, Down, DistinctBy, RouteKeyOf, RuleKeyOf, RouteKeys, RuleKeys, IpRun;
    var h, cs := j / 2, Down(net, t, |t|);
    UpTake(net, s, |s|, h);
    DownTake(net, t, |t|, h);
    ConfiguredPrefix(net, k0, s, t, h);
    FullyUndone(net, k0, s[..h], t[..h]);
    assert IpRun(k, cs[..2 * h]) == Some(k0);
    if m < 2 * h {
      PrefixRuns(k, cs, m + 1, 2 * h);
    } else if m > 2 * h {
      PrefixRuns(k, cs, 2 * h + 1, m);
      RunOneMore(k, cs, 2 * h);
      DownAt(net, t, |t|, h);
      ConfiguredOrders(net, k0, s, t);
    }
  }

  /** Which policy rules `c` deletions take away. */
  ghost predicate RulesGone(k: Kernel, t: seq<RouteRule>, c: nat, k': Kernel) {
    && (forall r :: r in k'.rules <==>
         r in k.rules && !exists x :: 0 <= x < |t| && 2 * x + 1 < c && RuleKeyOf(t[x]) == r)
    && (forall x :: 0 <= x < |t| && 2 * x + 1 < c ==> RuleKeyOf(t[x]) in k.rules)
  }

  lemma {:induction false} DeletedRules(net: Net, k: Kernel, t: seq<RouteRule>, c: nat)
    requires c <= 2 * |t| && IpRun(k, Down(net, t, |t|)[..c]).Some?
    ensures RulesGone(k, t, c, IpRun(k, Down(net, t, |t|)[..c]).value)
  {
    hide Down, RuleKeyOf, RouteKeyOf, IpRun, RulesGone;
    var cs := Down(net, t, |t|);
    if c == 0 {
      assert cs[..0] == [] && IpRun(k, []) == Some(k) by { RunNothing(k); }
      assert RulesGone(k, t, 0, k) by { NothingGone(k, t); }
    } else {
      RunOneMore(k, cs, c - 1);
      DeletedRules(net, k, t, c - 1);
      DownAt(net, t, |t|, (c - 1) / 2);
      OneMoreGone(net, k, t, c, IpRun(k, cs[..c - 1]).value, IpRun(k, cs[..c]).value);
    }
  }

  lemma NothingGone(k: Kernel, t: seq<RouteRule>)
    ensures RulesGone(k, t, 0, k)
  {
  }

  lemma OneMoreGone(net: Net, k: Kernel, t: seq<RouteRule>, c: nat, before: Kernel, after: Kernel)
    requires 0 < c <= 2 * |t| && RulesGone(k, t, c - 1, before)
    requires var x := (c - 1) / 2;
             var delRule, delRoute := RuleDel(RuleKeyOf(t[x])), RouteDel(RouteKeyOf(net, t[x]), HopOfRule(t[x]));
             IpStep(before, if c % 2 == 0 then delRule else delRoute) == Some(after)
    ensures RulesGone(k, t, c, after)
  {
    hide RuleKeyOf, RouteKeyOf, HopOfRule;
    if c % 2 == 0 {
      assert forall x :: 2 * x + 1 < c <==> 2 * x + 1 < c - 1 || x == (c - 1) / 2;
    } else {
      assert after.rules == before.rules;
      assert forall x :: 2 * x + 1 < c <==> 2 * x + 1 < c - 1;
    }
  }

  /** If the rollback restores the kernel, the deleted rules are the added ones. */
  lemma DeletedAreAdded(net: Net, k0: Kernel, s: seq<RouteRule>, t: seq<RouteRule>, j: nat, k: Kernel, m: nat)
    requires Configured(net, k0, s, t) && |s| == |t| && AppliedTo(net, k0, s, j, k) && StopsAfter(net, k, t, m)
    requires Left(net, k, t, m) == k0
    ensures (j + 1) / 2 <= |s| && m / 2 <= |t| && forall r :: r in s[..(j + 1) / 2] <==> r in t[..m / 2]
  {
    hide Configured, Up, Down, RouteKeyOf, RuleKeyOf, RoutesUp, IpRun;
    ConfiguredOrders(net, k0, s, t);
    UpPrefix(net, k0, s, j);
    DeletedRules(net, k, t, m);
    var added, gone := s[..(j + 1) / 2], t[..m / 2];
    forall r | r in added ensures r in gone {
      var i :| 0 <= i < |added| && added[i] == r;
      assert 2 * i < j && RuleKeyOf(s[i]) in k.rules;
      assert s[i] in t;
      var y :| 0 <= y < |t| && t[y] == s[i];
      assert RuleKeyOf(t[y]) !in k0.rules;
      var x :| 0 <= x < |t| && 2 * x + 1 < m && RuleKeyOf(t[x]) == RuleKeyOf(s[i]);
      SameRuleKey(t, x, y);
      assert gone[x] == r;
    }
    forall r | r in gone ensures r in added {
      var x :| 0 <= x < |gone| && gone[x] == r;
      assert 2 * x + 1 < m && RuleKeyOf(t[x]) in k.rules && RuleKeyOf(t[x]) !in k0.rules;
      var i :| 0 <= i < |s| && 2 * i < j && RuleKeyOf(s[i]) == RuleKeyOf(t[x]);
      assert s[i] in t;
      var y :| 0 <= y < |t| && t[y] == s[i];
      SameRuleKey(t, x, y);
      assert added[i] == r;
    }
  }

  lemma SameRuleKey(t: seq<RouteRule>, x: nat, y: nat)
    requires x < |t| && y < |t| && DistinctBy(t, RuleKeys()) && RuleKeyOf(t[x]) == RuleKeyOf(t[y])
    ensures x == y
  {
    assert RuleKeys()(t[x]) == RuleKeys()(t[y]);
  }

  /** A rule added without its route would leave its deletion nothing to delete. */
  lemma WholeRules(net: Net, k0: Kernel, s: seq<RouteRule>, t: seq<RouteRule>, j: nat, k: Kernel, m: nat)
    requires Configured(net, k0, s, t) && |s| == |t| && AppliedTo(net, k0, s, j, k) && StopsAfter(net, k, t, m)
    requires (j + 1) / 2 <= |s| && m / 2 <= |t| && forall r :: r in s[..(j + 1) / 2] <==> r in t[..m / 2]
    ensures j % 2 == 0
  {
    hide Configured, Up, Down, RouteKeyOf, RuleKeyOf, RulesUp, RoutesUp, RoutesGone, IpRun, FreshRoutes;
    if j % 2 == 1 {
      ConfiguredOrders(net, k0, s, t);
      PrefixRuns(k, Down(net, t, |t|), 2 * (m / 2), m);
      DeletionsAreDistinct(net, k, t, m / 2);
      var x := IndexIn(s, t[..m / 2], j / 2, (j + 1) / 2);
      GoneRoutes(net, k, t, m / 2, IpRun(k, Down(net, t, |t|)[..2 * (m / 2)]).value);
      UpPrefix(net, k0, s, j);
      var i := RouteOfHalfRule(net, k0, s, j, k);
      var y := IndexIn(s, t[..m / 2], i, (j + 1) / 2);
      DistinctRules(net, k0, s, t, i, j / 2);
    }
  }

  lemma GoneRoutes(net: Net, k: Kernel, t: seq<RouteRule>, h: nat, k': Kernel)
    requires h <= |t| && RoutesGone(net, k, t, h, k')
    ensures forall x :: 0 <= x < h ==> RouteKeyOf(net, t[x]) in k.routes
    ensures forall x, y :: 0 <= x < h && 0 <= y < h && RouteKeyOf(net, t[x]) == RouteKeyOf(net, t[y]) ==> x == y
  {
    hide RouteKeyOf;
  }

  /** If the route of a rule that was only half applied is there, an earlier rule put it there. */
  lemma RouteOfHalfRule(net: Net, k0: Kernel, s: seq<RouteRule>, j: nat, k: Kernel) returns (i: nat)
    requires j % 2 == 1 && j <= 2 * |s| && FreshRoutes(net, k0, s) && RoutesUp(net, k0, s, j, k)
    requires RouteKeyOf(net, s[j / 2]) in k.routes
    ensures i < j / 2 && RouteKeyOf(net, s[i]) == RouteKeyOf(net, s[j / 2])
  {
    hide RouteKeyOf, HopsAgree;
    i :| 0 <= i < |s| && 2 * i + 1 < j && RouteKeyOf(net, s[i]) == RouteKeyOf(net, s[j / 2]);
  }

  lemma IndexIn(s: seq<RouteRule>, gone: seq<RouteRule>, i: nat, h: nat) returns (x: nat)
    requires i < h <= |s| && forall r :: r in s[..h] <==> r in gone
    ensures x < |gone| && gone[x] == s[i]
  {
    assert s[..h][i] in gone;
    x :| 0 <= x < |gone| && gone[x] == s[i];
  }

  lemma DistinctRules(net: Net, k0: Kernel, s: seq<RouteRule>, t: seq<RouteRule>, i: nat, g: nat)
    requires Configured(net, k0, s, t) && i < |s| && g < |s| && i != g
    ensures s[i] != s[g]
  {
    var a, b := if i < g then i else g, if i < g then g else i;
    assert RuleKeys()(s[a]) != RuleKeys()(s[b]);
  }

  lemma RestoredIsReversible(net: Net, k0: Kernel, s: seq<RouteRule>, t: seq<RouteRule>, j: nat, k: Kernel, m: nat)
    requires Configured(net, k0, s, t) && |s| == |t| && AppliedTo(net, k0, s, j, k) && StopsAfter(net, k, t, m)
    requires Left(net, k, t, m) == k0
    ensures Reversible(net, s, t, j)
  {
    hide Configured, Up, Down, RouteKeyOf, RuleKeyOf, RouteKeys, RuleKeys, IpRun, DistinctBy;
    DeletedAreAdded(net, k0, s, t, j, k, m);
    WholeRules(net, k0, s, t, j, k, m);
    var h := j / 2;
    assert (j + 1) / 2 == h;
    ConfiguredOrders(net, k0, s, t);
    SameDistinct(s, t, h, m / 2, net, k0);
    PrefixRuns(k, Down(net, t, |t|), 2 * h, m);
    DeletionsAreDistinct(net, k, t, h);
    GoneAreDistinct(net, k, t, h, IpRun(k, Down(net, t, |t|)[..2 * h]).value);
    PermutationKeepsDistinct(t[..h], s[..h], RouteKeys(net));
  }

  lemma GoneAreDistinct(net: Net, k: Kernel, t: seq<RouteRule>, h: nat, k': Kernel)
    requires h <= |t| && RoutesGone(net, k, t, h, k')
    ensures DistinctBy(t[..h], RouteKeys(net))
  {
    hide RouteKeyOf;
  }

  lemma SameDistinct(s: seq<RouteRule>, t: seq<RouteRule>, h: nat, g: nat, net: Net, k0: Kernel)
    requires Configured(net, k0, s, t) && h <= |s| && g <= |t| && forall r :: r in s[..h] <==> r in t[..g]
    ensures g == h && multiset(t[..g]) == multiset(s[..h])
  {
    hide RouteKeyOf, RuleKeyOf;
    ConfiguredOrders(net, k0, s, t);
    assert DistinctBy(s[..h], RuleKeys()) && DistinctBy(t[..g], RuleKeys());
    SameSets(t[..g], s[..h], RuleKeys());
    assert |multiset(t[..g])| == g && |multiset(s[..h])| == h;
  }

  /** Rollback of the kernel, exactly: restored iff the applied commands are reversible. */
  lemma UndoneExactly(net: Net, k0: Kernel, s: seq<RouteRule>, t: seq<RouteRule>, j: nat, k: Kernel, m: nat)
    requires Configured(net, k0, s, t) && |s| == |t| && AppliedTo(net, k0, s, j, k) && StopsAfter(net, k, t, m)
    ensures Left(net, k, t, m) == k0 <==> Reversible(net, s, t, j)
  {
    hide Configured, Reversible, StopsAfter, Left;
    if Reversible(net, s, t, j) { ReversibleIsUndone(net, k0, s, t, j, k, m); }
    if Left(net, k, t, m) == k0 { RestoredIsReversible(net, k0, s, t, j, k, m); }
  }

  // ---- the same, with nftables, dnsmasq and outages ----

  lemma {:induction false} ExecLifted(h: Host, cs: seq<IpCommand>, faults: nat -> bool, at: nat)
    ensures var p := Exec(h, Lift(cs), faults, at);
            && p.done <= |cs| && IpRun(h.kernel, cs[..p.done]).Some?
            && p.host == h.(kernel := IpRun(h.kernel, cs[..p.done]).value)
            && ((forall n :: at <= n < at + |cs| ==> !faults(n)) && p.done < |cs| ==>
                 IpRun(h.kernel, cs[..p.done + 1]).None?)
    decreases |cs|
  {
    var p := Exec(h, Lift(cs), faults, at);
    if cs == [] {
      assert cs[..0] == [];
    } else {
      var step := IpStep(h.kernel, cs[0]);
      assert Lift(cs)[0] == Ip(cs[0]) && Lift(cs)[1..] == Lift(cs[1..]);
      if faults(at) || step.None? {
        assert cs[..0] == [];
        assert cs[..1] == [cs[0]];
      } else {
        ExecLifted(h.(kernel := step.value), cs[1..], faults, at + 1);
        assert cs[..p.done][1..] == cs[1..][..p.done - 1];
        if p.done < |cs| {
          assert cs[..p.done + 1][1..] == cs[1..][..p.done];
        }
      }
    }
  }

  lemma ExecOne(h: Host, c: Command, faults: nat -> bool, at: nat)
    ensures Exec(h, [c], faults, at) ==
            if faults(at) || HostStep(h, c).None? then Progress(h, 0) else Progress(HostStep(h, c).value, 1)
  {
    assert [c][1..] == [];
  }

  /** A run that loaded nftables and then failed has applied `done - 1` route commands. */
  lemma ForwardState(net: Net, s: seq<RouteRule>, h0: Host, faults: nat -> bool, at: nat)
    requires h0.nft.None?
    requires 1 <= Exec(h0, ApplyCommands(net, s), faults, at).done < |ApplyCommands(net, s)|
    ensures var a := Exec(h0, ApplyCommands(net, s), faults, at);
            && a.done - 1 <= 2 * |s| && IpRun(h0.kernel, Up(net, s, |s|)[..a.done - 1]).Some?
            && a.host == Host(IpRun(h0.kernel, Up(net, s, |s|)[..a.done - 1]).value, Some(Marking(s)))
  {
    hide Exec, Up, IpRun, Marking;
    var load := NftLoad(Marking(s));
    ApplyInThreeParts(h0, [load], Lift(Up(net, s, |s|)), [ReloadDnsmasq], faults, at);
    ExecOne(h0, load, faults, at);
    var loaded := h0.(nft := Some(Marking(s)));
    assert HostStep(h0, load) == Some(loaded) by { assert [] + Marking(s) == Marking(s); }
    ExecLifted(loaded, Up(net, s, |s|), faults, at + 1);
    var q := Exec(loaded, Lift(Up(net, s, |s|)), faults, at + 1);
    ExecOne(q.host, ReloadDnsmasq, faults, at + 1 + 2 * |s|);
  }

  /** A rollback that meets no outage of its own before the closing reload. */
  lemma BackwardState(net: Net, t: seq<RouteRule>, h: Host, faults: nat -> bool, at: nat)
    requires h.nft.Some? && forall n :: at <= n < at + 1 + 2 * |t| ==> !faults(n)
    ensures exists m: nat :: StopsAfter(net, h.kernel, t, m)
              && Exec(h, RollbackCommands(net, t), faults, at).host ==
                   Host(IpRun(h.kernel, Down(net, t, |t|)[..m]).value, None)
  {
    hide Exec, Down, IpRun;
    ApplyInThreeParts(h, [NftDelete], Lift(Down(net, t, |t|)), [ReloadDnsmasq], faults, at);
    ExecOne(h, NftDelete, faults, at);
    var deleted := h.(nft := None);
    ExecLifted(deleted, Down(net, t, |t|), faults, at + 1);
    var q := Exec(deleted, Lift(Down(net, t, |t|)), faults, at + 1);
    ExecOne(q.host, ReloadDnsmasq, faults, at + 1 + 2 * |t|);
    assert StopsAfter(net, h.kernel, t, q.done);
  }

  /** Rollback, exactly. Take a configuration whose rules, routes and table are all new to the host
      and whose policy rules are distinct, and an application that failed after loading nftables, at
      any point and for any orders the two sorts leave. Its rollback restores the host precisely when
      the route commands that had run are reversible. */
  lemma RollbackRestoresExactly(net: Net, rules: seq<RouteRule>, s: seq<RouteRule>, t: seq<RouteRule>,
                                h0: Host, faults: nat -> bool, at: nat)
    requires Fresh(net, h0, rules) && DistinctBy(rules, RuleKeys())
    requires OrderOf(s, rules, RuleBefore) && OrderOf(t, rules, RuleAfter)
    requires 1 <= Exec(h0, ApplyCommands(net, s), faults, at).done < |ApplyCommands(net, s)|
    requires var done := Exec(h0, ApplyCommands(net, s), faults, at).done;
             forall n :: at + done + 1 <= n < at + done + 2 + 2 * |t| ==> !faults(n)
    ensures |s| == |t| && |ApplyCommands(net, s)| == 2 * |s| + 2
    ensures var a := Exec(h0, ApplyCommands(net, s), faults, at);
            Exec(a.host, RollbackCommands(net, t), faults, at + a.done + 1).host == h0 <==>
              Reversible(net, s, t, a.done - 1)
  {
    hide Exec, Up, Down, RuleBefore, RuleKeyOf, RouteKeyOf, DistinctBy, Marking, RouteKeys, RuleKeys, Reversible;
    var a := Exec(h0, ApplyCommands(net, s), faults, at);
    assert |s| == |t| && Configured(net, h0.kernel, s, t) by { OrdersAreConfigured(net, h0, rules, s, t); }
    hide Configured, Fresh, OrderOf;
    ForwardState(net, s, h0, faults, at);
    BackwardState(net, t, a.host, faults, at + a.done + 1);
    var back := Exec(a.host, RollbackCommands(net, t), faults, at + a.done + 1).host;
    var m: nat :| StopsAfter(net, a.host.kernel, t, m)
                  && back == Host(IpRun(a.host.kernel, Down(net, t, |t|)[..m]).value, None);
    UndoneExactly(net, h0.kernel, s, t, a.done - 1, a.host.kernel, m);
  }

  lemma OrdersAreConfigured(net: Net, h0: Host, rules: seq<RouteRule>, s: seq<RouteRule>, t: seq<RouteRule>)
    requires Fresh(net, h0, rules) && DistinctBy(rules, RuleKeys())
    requires OrderOf(s, rules, RuleBefore) && OrderOf(t, rules, RuleAfter)
    ensures |s| == |t| && Configured(net, h0.kernel, s, t)
  {
    hide RuleKeyOf, RouteKeyOf, DistinctBy, RuleKeys, RuleBefore;
    SameMembers(s, rules);
    SameMembers(t, rules);
    PermutationKeepsDistinct(rules, s, RuleKeys());
  }

  /** No two different rules compare equal, so the sorts have no freedom. */
  ghost predicate NoTies(rules: seq<RouteRule>) {
    forall a, b :: a in rules && b in rules && a != b ==> RuleBefore(a, b) || RuleBefore(b, a)
  }

  lemma LeastIsLast(rules: seq<RouteRule>, s: seq<RouteRule>, t: seq<RouteRule>)
    requires rules != [] && OrderOf(s, rules, RuleBefore) && OrderOf(t, rules, RuleAfter) && NoTies(rules)
    ensures |s| == |t| == |rules| && s[0] == t[|t| - 1]
  {
    hide RuleBefore;
    SameMembers(s, rules);
    SameMembers(t, rules);
    assert s[0] in t && t[|t| - 1] in s && s[0] in rules && t[|t| - 1] in rules;
    var i :| 0 <= i < |t| && t[i] == s[0];
    var j :| 0 <= j < |s| && s[j] == t[|t| - 1];
    assert j > 0 ==> !RuleBefore(s[j], s[0]);
    assert i < |t| - 1 ==> !RuleAfter(t[|t| - 1], t[i]);
  }

  /** Without ties deletion starts at the other end, so commands are reversible exactly when none had
      run, or all had and no two rules share a destination and table. */
  lemma ReversibleWithoutTies(net: Net, k0: Kernel, rules: seq<RouteRule>, s: seq<RouteRule>, t: seq<RouteRule>, j: nat)
    requires Configured(net, k0, s, t) && |s| == |t| && NoTies(rules) && j <= 2 * |s|
    requires OrderOf(s, rules, RuleBefore) && OrderOf(t, rules, RuleAfter)
    ensures Reversible(net, s, t, j) <==> j == 0 || (j == 2 * |s| && DistinctBy(s, RouteKeys(net)))
  {
    hide RuleBefore, NoTies, RouteKeyOf, RuleKeyOf, RouteKeys, Sorted;
    var h := j / 2;
    if j == 0 {
      assert s[..0] == t[..0] == [];
    } else if j == 2 * |s| {
      assert s[..|s|] == s && t[..|t|] == t;
    } else if Reversible(net, s, t, j) {
      SameMembers(s, rules);
      LeastIsLast(rules, s, t);
      SameMembers(t[..h], s[..h]);
      assert s[..h][0] in t[..h];
      var x :| 0 <= x < h && t[..h][x] == s[0];
      ConfiguredOrders(net, k0, s, t);
    }
  }

  /** Ties can save a rollback: two rules equal in preference and name, of which the first was applied. */
  lemma TiedRulesCanBeReversed(net: Net, a: RouteRule, b: RouteRule)
    requires a.preference == b.preference && a.name == b.name && a.mark != b.mark
    ensures OrderOf([a, b], [a, b], RuleBefore) && OrderOf([a, b], [a, b], RuleAfter)
            && Reversible(net, [a, b], [a, b], 2)
  {
    StrOrder();
    assert [a, b][..1] == [a];
  }

  /** Applying again a configuration that is already in force fails at the first policy rule, and the
      rollback then takes down what the earlier application had put up. */
  lemma FailedReapplyTearsDown(net: Net, k0: Kernel, k: Kernel, nft: seq<RouteRule>, s: seq<RouteRule>,
                               t: seq<RouteRule>, at: nat)
    requires Configured(net, k0, s, t) && s != [] && DistinctBy(s, RouteKeys(net))
    requires IpRun(k0, Up(net, s, |s|)) == Some(k)
    ensures var calm := (n: nat) => false;
            var a := Exec(Host(k, Some(nft)), ApplyCommands(net, s), calm, at);
            && a.done == 1
            && Exec(a.host, RollbackCommands(net, t), calm, at + 2).host == Host(k0, None)
  {
    hide Up, Down, RuleKeyOf, RouteKeyOf, DistinctBy, RouteKeys, RuleKeys, Marking, Exec, Configured, IpRun;
    var calm := (n: nat) => false;
    var h, load := Host(k, Some(nft)), NftLoad(Marking(s));
    assert Up(net, s, |s|)[..2 * |s|] == Up(net, s, |s|);
    ConfiguredOrders(net, k0, s, t);
    UpPrefix(net, k0, s, 2 * |s|);
    assert 2 * 0 < 2 * |s| && RuleKeyOf(s[0]) in k.rules;
    UpAt(net, s, |s|, 0);
    ApplyInThreeParts(h, [load], Lift(Up(net, s, |s|)), [ReloadDnsmasq], calm, at);
    ExecOne(h, load, calm, at);
    var loaded := HostStep(h, load).value;
    FirstFails(loaded, Lift(Up(net, s, |s|)), calm, at + 1);
    FullyUndone(net, k0, s, t);
    BackwardState(net, t, loaded, calm, at + 2);
    var m: nat :| StopsAfter(net, k, t, m) && Exec(loaded, RollbackCommands(net, t), calm, at + 2).host
                                              == Host(IpRun(k, Down(net, t, |t|)[..m]).value, None);
    assert Down(net, t, |t|)[..2 * |t|] == Down(net, t, |t|);
    if m < 2 * |t| { PrefixRuns(k, Down(net, t, |t|), m + 1, 2 * |t|); }
  }

  lemma FirstFails(h: Host, cs: seq<Command>, faults: nat -> bool, at: nat)
    requires cs != [] && HostStep(h, cs[0]).None?
    ensures Exec(h, cs, faults, at) == Progress(h, 0)
  {
  }
}
