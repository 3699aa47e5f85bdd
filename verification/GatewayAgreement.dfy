/** The planned gateway routing agrees with the policy engine, and when it cannot. */
module GatewayAgreement {
  import opened Text
  import opened Sorting
  import opened Network
  import opened PopProfile
  import opened ServiceChain
  import opened ServiceChainMeaning
  import opened Policy
  import opened Gateway
  import opened GatewayPlan
  import opened GatewayRollback

  // ---- the policy_mark chain ----

  predicate MarksPacket(net: Net, r: RouteRule, dst: Addr) {
    r.matchCIDR != "" && InCidr(net, r.matchCIDR, dst)
  }

  /** The nftables rule of a marking route rule; `nftCIDRSelector` picks the address family. */
  function PolicyMarkRule(net: Net, lan: string, r: RouteRule): NftRule {
    var family := if net.parseCIDR(r.matchCIDR).Some? then net.parseCIDR(r.matchCIDR).value.family else V4;
    NftRule([Iifname(lan), Daddr(family, r.matchCIDR)], [MetaMarkSet(r.mark)])
  }

  /** `Config.RenderNftables`: the policy_mark chain of the sorted rules. */
  function PolicyChain(net: Net, lan: string, s: seq<RouteRule>): seq<NftRule> {
    if s == [] then []
    else (if s[0].matchCIDR == "" then [] else [PolicyMarkRule(net, lan, s[0])]) + PolicyChain(net, lan, s[1..])
  }

  /** The mark after the rules ran in order: each match overwrites the mark before it. */
  function LastMark(net: Net, s: seq<RouteRule>, dst: Addr, mark: int): int {
    if s == [] then mark else LastMark(net, s[1..], dst, if MarksPacket(net, s[0], dst) then s[0].mark else mark)
  }

  lemma {:induction false} PolicyChainIsLastMatch(net: Net, lan: string, s: seq<RouteRule>, p: Packet, marks: Marks)
    ensures RunChain(net, PolicyChain(net, lan, s), p, marks) ==
            if OnInterface(lan, p) then marks.(meta := LastMark(net, s, Destination(p), marks.meta)) else marks
    decreases |s|
  {
    if s != [] {
      var chain, rest := PolicyChain(net, lan, s), PolicyChain(net, lan, s[1..]);
      if s[0].matchCIDR == "" {
        assert chain == rest;
        PolicyChainIsLastMatch(net, lan, s[1..], p, marks);
      } else {
        assert chain[0] == PolicyMarkRule(net, lan, s[0]) && chain[1..] == rest;
        MarkRuleRuns(net, lan, s[0], p, marks);
        PolicyChainIsLastMatch(net, lan, s[1..], p, RunRule(net, chain[0], p, marks));
      }
    }
  }

  lemma MarkRuleRuns(net: Net, lan: string, r: RouteRule, p: Packet, marks: Marks)
    requires r.matchCIDR != ""
    ensures RunRule(net, PolicyMarkRule(net, lan, r), p, marks) ==
            if OnInterface(lan, p) && MarksPacket(net, r, Destination(p)) then marks.(meta := r.mark) else marks
  {
    var rule := PolicyMarkRule(net, lan, r);
    assert Holds(net, rule.matches[0], p, marks) <==> OnInterface(lan, p);
    assert Holds(net, rule.matches[1], p, marks) <==> MarksPacket(net, r, Destination(p));
    assert rule.statements[1..] == [];
    assert ExecuteAll(rule.statements, marks) == ExecuteAll([], marks.(meta := r.mark));
  }

  lemma {:induction false} LastMarkUnmatched(net: Net, s: seq<RouteRule>, dst: Addr, mark: int)
    requires forall i :: 0 <= i < |s| ==> !MarksPacket(net, s[i], dst)
    ensures LastMark(net, s, dst, mark) == mark
  {
    if s != [] { LastMarkUnmatched(net, s[1..], dst, mark); }
  }

  lemma {:induction false} LastMarkMatched(net: Net, s: seq<RouteRule>, dst: Addr, mark: int, i: nat)
    requires i < |s| && MarksPacket(net, s[i], dst) && forall j :: i < j < |s| ==> !MarksPacket(net, s[j], dst)
    ensures LastMark(net, s, dst, mark) == s[i].mark
  {
    hide MarksPacket;
    if i == 0 {
      LastMarkUnmatched(net, s[1..], dst, s[0].mark);
    } else {
      LastMarkMatched(net, s[1..], dst, if MarksPacket(net, s[0], dst) then s[0].mark else mark, i - 1);
    }
  }

  // ---- marks select tables ----

  function TableOfMark(s: seq<RouteRule>, mark: int): Option<int> {
    if s == [] then None else if s[0].mark == mark then Some(s[0].table) else TableOfMark(s[1..], mark)
  }

  lemma {:induction false} TableOfMarkAt(s: seq<RouteRule>, i: nat)
    requires i < |s| && forall j, k :: 0 <= j < k < |s| ==> s[j].mark != s[k].mark
    ensures TableOfMark(s, s[i].mark) == Some(s[i].table)
  {
    if i > 0 { TableOfMarkAt(s[1..], i - 1); }
  }

  /** The table an unmarked packet to `dst` is sent to by these rules; None when it stays unmarked. */
  function RoutedTable(net: Net, s: seq<RouteRule>, dst: Addr): Option<int> {
    var mark := LastMark(net, s, dst, 0);
    if mark == 0 then None else TableOfMark(s, mark)
  }

  lemma LastMatchTable(net: Net, s: seq<RouteRule>, dst: Addr, i: nat)
    requires forall j, k :: 0 <= j < k < |s| ==> s[j].mark != s[k].mark
    requires i < |s| && s[i].mark != 0 && MarksPacket(net, s[i], dst)
    requires forall j :: i < j < |s| ==> !MarksPacket(net, s[j], dst)
    ensures RoutedTable(net, s, dst) == Some(s[i].table)
  {
    hide MarksPacket;
    LastMarkMatched(net, s, dst, 0, i);
    TableOfMarkAt(s, i);
  }

  // ---- library facts about host prefixes ----

  /** What `hostCIDR` prints for an address parses to that address's host prefix and has no bars. */
  ghost predicate Printable(net: Net, a: Addr) {
    a.value < Pow2(Bits(a.family)) && net.parseCIDR(HostText(net, a)) == Some(HostCidr(a)) && '|' !in net.showIP(a)
  }

  /** Every address that parses is printable. */
  ghost predicate HostLaws(net: Net) {
    forall text :: net.parseIP(text).Some? ==> Printable(net, net.parseIP(text).value)
  }

  ghost predicate AllPrintable(net: Net, es: seq<Entry>) { forall e :: e in es ==> Printable(net, e.addr) }

  /** Marks and preferences do not overflow. */
  predicate NoOverflow(o: PlanOptions, n: nat) {
    o.markBase > 0 && o.preferenceBase > 0 && o.markBase + n <= MAX_INT && o.preferenceBase + n <= MAX_INT
  }

  lemma NumberedAt(net: Net, o: PlanOptions, raw: string, es: seq<Entry>, i: nat)
    requires NoOverflow(o, |es|) && i < |es|
    ensures var r := Numbered(net, o, raw, es)[i];
            r.mark == o.markBase + i && r.preference == o.preferenceBase + i && r.table == es[i].target.table
  {
    hide NamePart;
  }

  lemma NumberedMatches(net: Net, o: PlanOptions, raw: string, es: seq<Entry>, i: nat, dst: Addr)
    requires i < |es| && Printable(net, es[i].addr)
    ensures MarksPacket(net, Numbered(net, o, raw, es)[i], dst) <==> es[i].addr == dst
  {
    hide NamePart, Pow2;
    HostContainsOnlyItself(es[i].addr, dst);
  }

  /** Beyond that range the plan is useless: an overflowed mark makes its rule invalid. */
  lemma OverflowedMarkIsRefused(net: Net, o: PlanOptions, raw: string, es: seq<Entry>, i: nat)
    requires 0 < o.markBase <= MAX_INT && i < |es| && MAX_INT < o.markBase + i <= 2 * MAX_INT
    ensures !ValidRouteRule(net, Numbered(net, o, raw, es)[i])
  {
    hide NamePart;
  }

  /** Planned rules route an address by the last entry planned for it. */
  lemma NumberedRoutes(net: Net, o: PlanOptions, raw: string, es: seq<Entry>, dst: Addr)
    requires AllPrintable(net, es) && NoOverflow(o, |es|)
    ensures (forall i :: 0 <= i < |es| ==> es[i].addr != dst) ==>
              RoutedTable(net, Numbered(net, o, raw, es), dst) == None
    ensures forall i :: 0 <= i < |es| && es[i].addr == dst && (forall j :: i < j < |es| ==> es[j].addr != dst) ==>
              RoutedTable(net, Numbered(net, o, raw, es), dst) == Some(es[i].target.table)
  {
    hide MarksPacket, Printable, RuleFor;
    var s := Numbered(net, o, raw, es);
    forall i | 0 <= i < |es|
      ensures s[i].mark == o.markBase + i && s[i].table == es[i].target.table
      ensures MarksPacket(net, s[i], dst) <==> es[i].addr == dst
    {
      assert es[i] in es;
      NumberedAt(net, o, raw, es, i);
      NumberedMatches(net, o, raw, es, i, dst);
    }
    hide Numbered;
    if forall i :: 0 <= i < |es| ==> es[i].addr != dst { LastMarkUnmatched(net, s, dst, 0); }
    forall i | 0 <= i < |es| && es[i].addr == dst && (forall j :: i < j < |es| ==> es[j].addr != dst)
      ensures RoutedTable(net, s, dst) == Some(es[i].target.table)
    {
      LastMatchTable(net, s, dst, i);
    }
  }

  // ---- duplicates ----

  lemma SplitLast(a: string, b: string, c: string, d: string)
    requires a + "|" + b == c + "|" + d && '|' !in b && '|' !in d
    ensures a == c && b == d
  {
    var s := a + "|" + b;
    assert s[|a|] == '|' && s[|c|] == '|';
    assert a == s[..|a|] && c == s[..|c|];
    assert b == s[|a| + 1..] && d == s[|c| + 1..];
  }

  /** Without bars in node ids, equal keys mean the same rule, address and node. */
  lemma KeyTextInjective(net: Net, x: Entry, y: Entry)
    requires Printable(net, x.addr) && Printable(net, y.addr) && '|' !in x.target.nodeID && '|' !in y.target.nodeID
    requires KeyText(net, x) == KeyText(net, y)
    ensures x.addr == y.addr && x.decision.ruleID == y.decision.ruleID && x.target.nodeID == y.target.nodeID
  {
    hide Pow2;
    var hx, hy := HostText(net, x.addr), HostText(net, y.addr);
    SplitLast(x.decision.ruleID + "|" + hx, x.target.nodeID, y.decision.ruleID + "|" + hy, y.target.nodeID);
    SplitLast(x.decision.ruleID, hx, y.decision.ruleID, hy);
    assert HostCidr(x.addr) == HostCidr(y.addr);
  }

  lemma {:induction false} KeptSubset(net: Net, es: seq<Entry>)
    ensures |Kept(net, es)| <= |es| && forall e :: e in Kept(net, es) ==> e in es
  {
    hide KeyText;
    if es != [] {
      KeptSubset(net, es[..|es| - 1]);
      assert es == es[..|es| - 1] + [es[|es| - 1]];
    }
  }

  /** Every entry's key is planned, by that entry or an earlier one. */
  lemma {:induction false} KeptCovers(net: Net, es: seq<Entry>, i: nat) returns (j: nat)
    requires i < |es|
    ensures j <= i && es[j] in Kept(net, es) && KeyText(net, es[j]) == KeyText(net, es[i])
    decreases |es|
  {
    hide KeyText;
    var before, last := es[..|es| - 1], es[|es| - 1];
    if i < |before| {
      j := KeptCovers(net, before, i);
    } else if KeyText(net, last) in Keys(net, before) {
      var twin :| twin in before && KeyText(net, twin) == KeyText(net, last);
      var x :| 0 <= x < |before| && before[x] == twin;
      j := KeptCovers(net, before, x);
    } else {
      j := i;
    }
  }

  /** A planned entry is the first of its key. */
  lemma {:induction false} KeptIsFirst(net: Net, es: seq<Entry>, e: Entry) returns (i: nat)
    requires e in Kept(net, es)
    ensures i < |es| && es[i] == e && forall j :: 0 <= j < i ==> KeyText(net, es[j]) != KeyText(net, e)
    decreases |es|
  {
    hide KeyText;
    var before, last := es[..|es| - 1], es[|es| - 1];
    if e in Kept(net, before) {
      i := KeptIsFirst(net, before, e);
    } else {
      i := |before|;
      forall j | 0 <= j < i ensures KeyText(net, es[j]) != KeyText(net, e) { assert before[j] in before; }
    }
  }

  /** No entry of another address comes before `es[i]` with the same key. */
  ghost predicate Unshadowed(net: Net, es: seq<Entry>, i: nat)
    requires i < |es|
  {
    forall j :: 0 <= j < i && KeyText(net, es[j]) == KeyText(net, es[i]) ==> es[j].addr == es[i].addr
  }

  /** Some entry of the address survives the duplicate check. */
  ghost predicate Represented(net: Net, es: seq<Entry>, dst: Addr) {
    exists i :: 0 <= i < |es| && es[i].addr == dst && Unshadowed(net, es, i)
  }

  lemma KeptRepresents(net: Net, es: seq<Entry>, dst: Addr)
    ensures (exists e :: e in Kept(net, es) && e.addr == dst) <==> Represented(net, es, dst)
  {
    hide KeyText, Kept;
    if e :| e in Kept(net, es) && e.addr == dst {
      var i := KeptIsFirst(net, es, e);
      assert Unshadowed(net, es, i);
    }
    if Represented(net, es, dst) {
      var i :| 0 <= i < |es| && es[i].addr == dst && Unshadowed(net, es, i);
      var j := KeptCovers(net, es, i);
      assert es[j].addr == dst;
    }
  }

  lemma {:induction false} EntryPlanned(net: Net, rules: Rules, byNode: map<string, EgressTarget>, qs: seq<Request>,
                                        q: Request, e: Entry)
    requires q in qs && EntryFor(net, rules, byNode, q) == Ok(Some(e))
    ensures e in Entries(net, rules, byNode, qs)
    decreases |qs|
  {
    hide EntryFor;
    var before, last := qs[..|qs| - 1], qs[|qs| - 1];
    assert qs == before + [last];
    if q in before { EntryPlanned(net, rules, byNode, before, q, e); }
  }

  lemma {:induction false} EntryReason(net: Net, rules: Rules, byNode: map<string, EgressTarget>, qs: seq<Request>,
                                       e: Entry)
    returns (q: Request)
    requires e in Entries(net, rules, byNode, qs)
    ensures q in qs && EntryFor(net, rules, byNode, q) == Ok(Some(e))
    decreases |qs|
  {
    hide EntryFor;
    var before, last := qs[..|qs| - 1], qs[|qs| - 1];
    assert qs == before + [last];
    if e in Entries(net, rules, byNode, before) {
      q := EntryReason(net, rules, byNode, before, e);
    } else {
      q := last;
    }
  }

  lemma {:induction false} EntriesAreFew(net: Net, rules: Rules, byNode: map<string, EgressTarget>, qs: seq<Request>)
    ensures |Entries(net, rules, byNode, qs)| <= |qs|
  {
    hide EntryFor;
    if qs != [] { EntriesAreFew(net, rules, byNode, qs[..|qs| - 1]); }
  }

  lemma {:induction false} LastWith(es: seq<Entry>, dst: Addr) returns (i: nat)
    requires exists k :: 0 <= k < |es| && es[k].addr == dst
    ensures i < |es| && es[i].addr == dst && forall j :: i < j < |es| ==> es[j].addr != dst
  {
    i := |es| - 1;
    while es[i].addr != dst
      invariant i < |es| && forall j :: i < j < |es| ==> es[j].addr != dst
      decreases i
    {
      i := i - 1;
    }
  }

  // ---- agreement ----

  /** The table the policy engine chose for an observation. */
  function ChosenTable(net: Net, rules: Rules, byNode: map<string, EgressTarget>, q: Request): Option<int> {
    match EntryFor(net, rules, byNode, q)
    case Rejected => None
    case Ok(None) => None
    case Ok(Some(e)) => Some(e.target.table)
  }

  /** Observations of one address lead to one table, or all to none. */
  ghost predicate Consistent(net: Net, rules: Rules, byNode: map<string, EgressTarget>, qs: seq<Request>) {
    forall a, b :: a in qs && b in qs && AddrOf(net, a) == AddrOf(net, b) ==>
      ChosenTable(net, rules, byNode, a) == ChosenTable(net, rules, byNode, b)
  }

  ghost predicate Agrees(net: Net, rules: Rules, byNode: map<string, EgressTarget>, planned: seq<RouteRule>,
                         qs: seq<Request>) {
    forall q :: q in qs && AddrOf(net, q).Some? ==>
      RoutedTable(net, planned, AddrOf(net, q).value) == ChosenTable(net, rules, byNode, q)
  }

  lemma EntriesArePrintable(net: Net, rules: Rules, byNode: map<string, EgressTarget>, qs: seq<Request>)
    requires HostLaws(net)
    ensures AllPrintable(net, Entries(net, rules, byNode, qs))
  {
    hide Entries, Printable, DecisionFor;
    forall e | e in Entries(net, rules, byNode, qs) ensures Printable(net, e.addr) {
      var q := EntryReason(net, rules, byNode, qs, e);
    }
  }

  /** An address is marked exactly when it is represented, and then as some observation of it decided. */
  lemma RoutedLikeSomeObservation(net: Net, rules: Rules, byNode: map<string, EgressTarget>, o: PlanOptions,
                                  raw: string, qs: seq<Request>, dst: Addr)
    requires HostLaws(net) && NoOverflow(o, |qs|)
    ensures var es := Entries(net, rules, byNode, qs);
            var table := RoutedTable(net, Numbered(net, o, raw, Kept(net, es)), dst);
            && (table.Some? <==> Represented(net, es, dst))
            && (table.Some? ==>
                 exists q :: q in qs && AddrOf(net, q) == Some(dst) && ChosenTable(net, rules, byNode, q) == table)
  {
    hide HostLaws, KeyText, Kept, Entries, Numbered, RoutedTable, DecisionFor, Printable, Represented;
    var es := Entries(net, rules, byNode, qs);
    var kept := Kept(net, es);
    EntriesAreFew(net, rules, byNode, qs);
    KeptSubset(net, es);
    EntriesArePrintable(net, rules, byNode, qs);
    NumberedRoutes(net, o, raw, kept, dst);
    KeptRepresents(net, es, dst);
    if exists k :: 0 <= k < |kept| && kept[k].addr == dst {
      var i := LastWith(kept, dst);
      assert kept[i] in kept;
      var q := EntryReason(net, rules, byNode, qs, kept[i]);
    }
  }

  /** Every matched observation's address survives the duplicate check. */
  ghost predicate AllRepresented(net: Net, rules: Rules, byNode: map<string, EgressTarget>, qs: seq<Request>) {
    var es := Entries(net, rules, byNode, StableSort(qs, ByKey(net)));
    forall q :: q in qs && AddrOf(net, q).Some? && ChosenTable(net, rules, byNode, q).Some? ==>
      Represented(net, es, AddrOf(net, q).value)
  }

  /** What the plan does with one address, in terms of the observations. */
  lemma PlanRoutes(net: Net, rules: Rules, options: PlanOptions, observations: seq<Request>,
                   byNode: map<string, EgressTarget>, dst: Addr)
    requires HostLaws(net) && NormalizePlanOptions(net, options).Ok?
    requires NoOverflow(NormalizePlanOptions(net, options).value, |observations|)
    ensures var table := RoutedTable(net, PlanFor(net, rules, options, observations, byNode), dst);
            && (table.Some? <==>
                 Represented(net, Entries(net, rules, byNode, StableSort(observations, ByKey(net))), dst))
            && (table.Some? ==>
                 exists q ::
                   q in observations && AddrOf(net, q) == Some(dst) && ChosenTable(net, rules, byNode, q) == table)
  {
    hide HostLaws, Numbered, Kept, Entries, RoutedTable, NormalizePlanOptions, ByKey, Represented, ChosenTable;
    var qs := StableSort(observations, ByKey(net));
    SameMembers(qs, observations);
    RoutedLikeSomeObservation(net, rules, byNode, NormalizePlanOptions(net, options).value, net.trim(options.destCIDR),
                              qs, dst);
  }

  /** Planned gateway routing agrees with the policy engine on every observation exactly when
      observations of one address agree among themselves and no matched address is shadowed by the
      duplicate key; an address no matched observation mentions stays unmarked. */
  lemma ObservedAgreement(net: Net, rules: Rules, targets: seq<EgressTarget>, options: PlanOptions,
                          observations: seq<Request>, byNode: map<string, EgressTarget>)
    requires HostLaws(net) && Plannable(net, rules, targets, options, observations, byNode)
    requires NoOverflow(NormalizePlanOptions(net, options).value, |observations|)
    ensures Agrees(net, rules, byNode, PlanFor(net, rules, options, observations, byNode), observations)
            <==> Consistent(net, rules, byNode, observations) && AllRepresented(net, rules, byNode, observations)
    ensures forall dst ::
              (forall q :: q in observations && AddrOf(net, q) == Some(dst) ==> !DecisionFor(net, rules, q).matched)
                          ==> RoutedTable(net, PlanFor(net, rules, options, observations, byNode), dst) == None
  {
    hide HostLaws, PlanFor, Entries, RoutedTable, NormalizePlanOptions, ByKey, Represented, DecisionFor;
    forall dst ensures PlannedLike(net, rules, options, observations, byNode, dst) {
      PlanRoutes(net, rules, options, observations, byNode, dst);
    }
    AgreesIff(net, rules, options, observations, byNode);
    forall dst | forall q :: q in observations && AddrOf(net, q) == Some(dst) ==> !DecisionFor(net, rules, q).matched
      ensures RoutedTable(net, PlanFor(net, rules, options, observations, byNode), dst) == None
    {
      assert PlannedLike(net, rules, options, observations, byNode, dst);
    }
  }

  ghost predicate PlannedLike(
    net: Net, rules: Rules, options: PlanOptions, observations: seq<Request>, byNode: map<string, EgressTarget>,
    dst: Addr)
    requires NormalizePlanOptions(net, options).Ok?
  {
    var table := RoutedTable(net, PlanFor(net, rules, options, observations, byNode), dst);
    && (table.Some? <==> Represented(net, Entries(net, rules, byNode, StableSort(observations, ByKey(net))), dst))
    && (table.Some? ==>
         exists q :: q in observations && AddrOf(net, q) == Some(dst) && ChosenTable(net, rules, byNode, q) == table)
  }

  lemma AgreesIff(net: Net, rules: Rules, options: PlanOptions, observations: seq<Request>,
                  byNode: map<string, EgressTarget>)
    requires NormalizePlanOptions(net, options).Ok? && forall q :: q in observations ==> AddrOf(net, q).Some?
    requires forall dst :: PlannedLike(net, rules, options, observations, byNode, dst)
    ensures Agrees(net, rules, byNode, PlanFor(net, rules, options, observations, byNode), observations)
            <==> Consistent(net, rules, byNode, observations) && AllRepresented(net, rules, byNode, observations)
  {
    hide PlanFor, Entries, RoutedTable, NormalizePlanOptions, ByKey, Represented, ChosenTable, AddrOf;
    var planned := PlanFor(net, rules, options, observations, byNode);
    if Agrees(net, rules, byNode, planned, observations) {
      forall a, b | a in observations && b in observations && AddrOf(net, a) == AddrOf(net, b)
        ensures ChosenTable(net, rules, byNode, a) == ChosenTable(net, rules, byNode, b)
      {
        assert RoutedTable(net, planned, AddrOf(net, a).value) == ChosenTable(net, rules, byNode, a);
      }
      forall q | q in observations && AddrOf(net, q).Some? && ChosenTable(net, rules, byNode, q).Some?
        ensures Represented(net, Entries(net, rules, byNode, StableSort(observations, ByKey(net))),
                            AddrOf(net, q).value)
      {
        assert PlannedLike(net, rules, options, observations, byNode, AddrOf(net, q).value);
      }
    }
    if Consistent(net, rules, byNode, observations) && AllRepresented(net, rules, byNode, observations) {
      forall q | q in observations && AddrOf(net, q).Some?
        ensures RoutedTable(net, planned, AddrOf(net, q).value) == ChosenTable(net, rules, byNode, q)
      {
        assert PlannedLike(net, rules, options, observations, byNode, AddrOf(net, q).value);
      }
    }
  }

  /** Node ids without bars never shadow: then agreement is just consistency. */
  lemma NoBarsNoShadows(net: Net, rules: Rules, byNode: map<string, EgressTarget>, qs: seq<Request>)
    requires HostLaws(net) && forall n :: n in byNode ==> '|' !in byNode[n].nodeID
    ensures AllRepresented(net, rules, byNode, qs)
  {
    hide KeyText, Entries, DecisionFor, Printable, ByKey, HostLaws;
    var sorted := StableSort(qs, ByKey(net));
    SameMembers(sorted, qs);
    var es := Entries(net, rules, byNode, sorted);
    EntriesArePrintable(net, rules, byNode, sorted);
    forall q | q in qs && AddrOf(net, q).Some? && ChosenTable(net, rules, byNode, q).Some?
      ensures Represented(net, es, AddrOf(net, q).value)
    {
      var e := EntryFor(net, rules, byNode, q).value.value;
      EntryPlanned(net, rules, byNode, sorted, q, e);
      var i :| 0 <= i < |es| && es[i] == e;
      forall j | 0 <= j < i && KeyText(net, es[j]) == KeyText(net, es[i]) ensures es[j].addr == es[i].addr {
        assert es[j] in es;
        var q2 := EntryReason(net, rules, byNode, sorted, es[j]);
        KeyTextInjective(net, es[j], es[i]);
      }
      assert Unshadowed(net, es, i);
    }
  }

  // ---- down to the next hop ----

  /** The gateway's own sort leaves planned rules in planning order. */
  lemma PlannedOrderIsKept(net: Net, o: PlanOptions, raw: string, es: seq<Entry>, s: seq<RouteRule>)
    requires NoOverflow(o, |es|) && OrderOf(s, Numbered(net, o, raw, es), RuleBefore)
    ensures s == Numbered(net, o, raw, es)
  {
    hide RuleFor;
    var planned := Numbered(net, o, raw, es);
    forall i | 0 <= i < |planned| ensures planned[i].preference == o.preferenceBase + i {
      NumberedAt(net, o, raw, es, i);
    }
    hide Numbered, StrLess;
    RuleBeforeIsAnOrder();
    StrictOrderIsUnique(planned, s, RuleBefore);
  }

  /** IPv4 entries whose targets have distinct tables, planned with a default-route destination, on a
      kernel that uses neither their marks nor their tables. */
  ghost predicate Deployable(net: Net, o: PlanOptions, es: seq<Entry>, k0: Kernel) {
    && NoOverflow(o, |es|) && net.parseCIDR(o.destCIDR) == Some(DefaultCidr(V4))
    && (forall i :: 0 <= i < |es| ==> es[i].addr.family == V4)
    && (forall i, j :: 0 <= i < j < |es| && es[i].target.table == es[j].target.table ==> es[i].target == es[j].target)
    && (forall r :: r in k0.rules ==> !(o.markBase <= r.mark < o.markBase + |es|))
    && (forall key, i :: key in k0.routes && 0 <= i < |es| ==> key.table != es[i].target.table)
  }

  lemma DeployedRule(net: Net, o: PlanOptions, raw: string, es: seq<Entry>, k0: Kernel, i: nat)
    requires Deployable(net, o, es, k0) && i < |es|
    ensures var r := Numbered(net, o, raw, es)[i];
            && r.mark == o.markBase + i && r.table == es[i].target.table
            && HopOfRule(r) == Hop(es[i].target.gateway, es[i].target.iface)
            && RouteKeyOf(net, r) == RouteKey(V4, DefaultCidr(V4), es[i].target.table)
            && RuleKeyOf(r) !in k0.rules && RouteKeyOf(net, r) !in k0.routes
  {
    hide NamePart;
    NumberedAt(net, o, raw, es, i);
  }

  /** The planned rules, seen from the kernel. */
  ghost predicate Deployed(net: Net, o: PlanOptions, es: seq<Entry>, k0: Kernel, s: seq<RouteRule>) {
    && |s| == |es|
    && (forall j :: 0 <= j < |s| ==>
          && s[j].mark == o.markBase + j && s[j].table == es[j].target.table
          && HopOfRule(s[j]) == Hop(es[j].target.gateway, es[j].target.iface)
          && RouteKeyOf(net, s[j]) == RouteKey(V4, DefaultCidr(V4), s[j].table)
          && RuleKeyOf(s[j]) !in k0.rules && RouteKeyOf(net, s[j]) !in k0.routes)
  }

  lemma NumberedIsDeployed(net: Net, o: PlanOptions, raw: string, es: seq<Entry>, k0: Kernel)
    requires Deployable(net, o, es, k0)
    ensures Deployed(net, o, es, k0, Numbered(net, o, raw, es))
  {
    hide RuleFor, Deployable, RouteKeyOf, HopOfRule, RuleKeyOf, Numbered;
    forall j | 0 <= j < |es| { DeployedRule(net, o, raw, es, k0, j); }
  }

  lemma DeployedIsSound(net: Net, o: PlanOptions, es: seq<Entry>, k0: Kernel, s: seq<RouteRule>)
    requires Deployable(net, o, es, k0) && Deployed(net, o, es, k0, s)
    ensures DistinctBy(s, RuleKeys()) && HopsAgree(net, s) && FreshRoutes(net, k0, s)
    ensures forall j :: 0 <= j < |s| ==> RuleKeyOf(s[j]) !in k0.rules && !HostBits(RouteKeyOf(net, s[j]).dest)
  {
    hide RouteKeyOf, HopOfRule, HostBits;
    DefaultHasNoHostBits(V4);
  }

  lemma PlanInstalls(net: Net, o: PlanOptions, raw: string, es: seq<Entry>, k0: Kernel)
    requires Deployable(net, o, es, k0)
    ensures var s := Numbered(net, o, raw, es);
            IpRun(k0, Up(net, s, |s|)).Some?
            && RulesUp(k0, s, 2 * |s|, IpRun(k0, Up(net, s, |s|)).value)
            && RoutesUp(net, k0, s, 2 * |s|, IpRun(k0, Up(net, s, |s|)).value)
  {
    hide Deployable, Numbered, Up, RouteKeyOf, HopOfRule, RuleKeyOf, IpRun, RulesUp, RoutesUp, DistinctBy, HopsAgree;
    hide FreshRoutes;
    hide HostBits;
    var s := Numbered(net, o, raw, es);
    NumberedIsDeployed(net, o, raw, es, k0);
    DeployedIsSound(net, o, es, k0, s);
    UpRuns(net, k0, s, 2 * |s|);
    UpPrefix(net, k0, s, 2 * |s|);
    assert Up(net, s, |s|)[..2 * |s|] == Up(net, s, |s|);
  }

  /** An address leaves through the egress node of the last entry planned for it, whatever mark it came with. */
  lemma PlannedHop(net: Net, o: PlanOptions, raw: string, es: seq<Entry>, k0: Kernel, i: nat, dst: Addr, mark: int)
    requires AllPrintable(net, es) && Deployable(net, o, es, k0)
    requires i < |es| && es[i].addr == dst && forall j :: i < j < |es| ==> es[j].addr != dst
    ensures var s := Numbered(net, o, raw, es);
            var k := IpRun(k0, Up(net, s, |s|));
            k.Some? && OnlyVia(k.value, LastMark(net, s, dst, mark), dst, Hop(es[i].target.gateway, es[i].target.iface))
  {
    hide Printable, Pow2, Numbered, Up, RouteKeyOf, HopOfRule, RuleKeyOf, OnlyVia, IpRun, RulesUp, RoutesUp;
    hide DistinctBy, FreshRoutes, LastMark, HostBits, AllPrintable;
    var s := Numbered(net, o, raw, es);
    PlannedMark(net, o, raw, es, k0, i, dst, mark);
    NumberedIsDeployed(net, o, raw, es, k0);
    DeployedIsSound(net, o, es, k0, s);
    PlanInstalls(net, o, raw, es, k0);
    DeployedForwards(net, s, k0, IpRun(k0, Up(net, s, |s|)).value, i, dst);
  }

  lemma PlannedMark(net: Net, o: PlanOptions, raw: string, es: seq<Entry>, k0: Kernel, i: nat, dst: Addr, mark: int)
    requires AllPrintable(net, es) && Deployable(net, o, es, k0)
    requires i < |es| && es[i].addr == dst && forall j :: i < j < |es| ==> es[j].addr != dst
    ensures LastMark(net, Numbered(net, o, raw, es), dst, mark) == Numbered(net, o, raw, es)[i].mark
    ensures dst.family == V4 && dst.value < Pow2(32)
  {
    assert es[i] in es && dst.value < Pow2(32) by { assert Bits(V4) == 32; }
    hide Printable, Pow2, RuleFor, MarksPacket;
    var s := Numbered(net, o, raw, es);
    forall j | 0 <= j < |es| ensures MarksPacket(net, s[j], dst) <==> es[j].addr == dst {
      assert es[j] in es;
      NumberedMatches(net, o, raw, es, j, dst);
    }
    LastMarkMatched(net, s, dst, mark, i);
  }

  lemma DeployedForwards(net: Net, s: seq<RouteRule>, k0: Kernel, k: Kernel, i: nat, dst: Addr)
    requires RulesUp(k0, s, 2 * |s|, k) && RoutesUp(net, k0, s, 2 * |s|, k) && HopsAgree(net, s) && i < |s|
    requires forall j :: 0 <= j < |s| ==> RouteKeyOf(net, s[j]) == RouteKey(V4, DefaultCidr(V4), s[j].table)
    requires forall j :: 0 <= j < |s| && j != i ==> s[j].mark != s[i].mark
    requires forall r :: r in k0.rules ==> r.mark != s[i].mark
    requires forall key :: key in k0.routes ==> key.table != s[i].table
    requires dst.family == V4 && dst.value < Pow2(32)
    ensures OnlyVia(k, s[i].mark, dst, HopOfRule(s[i]))
  {
    var rule := RuleKeyOf(s[i]);
    assert Selected(k, s[i].mark, dst, rule) && forall r :: Selected(k, s[i].mark, dst, r) ==> r == rule by {
      hide RoutesUp, HopsAgree, RouteKeyOf, Pow2;
      assert 2 * i < 2 * |s|;
    }
    assert RouteKeyOf(net, s[i]) in k.routes && k.routes[RouteKeyOf(net, s[i])] == HopOfRule(s[i]) by {
      hide RulesUp, Pow2, HopOfRule;
      assert 2 * i + 1 < 2 * |s|;
    }
    assert forall key :: key in k.routes && key.family == V4 && key.table == s[i].table ==>
             key.dest == DefaultCidr(V4) by {
      hide RulesUp, HopsAgree, Pow2;
    }
    hide RulesUp, RoutesUp, HopsAgree, Forwards, Pow2, HopOfRule;
    assert Bits(V4) == 32;
    SingleRuleForwards(k, s[i].mark, dst, rule, HopOfRule(s[i]));
  }

  /** A kernel the plan can be deployed on: observed addresses are IPv4, the destination option is the
      default route, egress nodes have tables of their own, and neither marks nor tables are in use. */
  ghost predicate DeployableOn(net: Net, o: PlanOptions, qs: seq<Request>, byNode: map<string, EgressTarget>,
                               k0: Kernel) {
    && NoOverflow(o, |qs|) && net.parseCIDR(o.destCIDR) == Some(DefaultCidr(V4))
    && (forall q :: q in qs && AddrOf(net, q).Some? ==> AddrOf(net, q).value.family == V4)
    && (forall m, n :: m in byNode && n in byNode && byNode[m].table == byNode[n].table ==> m == n)
    && (forall r :: r in k0.rules ==> !(o.markBase <= r.mark < o.markBase + |qs|))
    && (forall key, n :: key in k0.routes && n in byNode ==> key.table != byNode[n].table)
  }

  /** The node an entry was planned for. */
  lemma EntryNode(net: Net, rules: Rules, byNode: map<string, EgressTarget>, qs: seq<Request>, e: Entry)
    returns (q: Request)
    requires e in Kept(net, Entries(net, rules, byNode, qs))
    ensures q in qs && EntryFor(net, rules, byNode, q) == Ok(Some(e))
    ensures AddrOf(net, q) == Some(e.addr) && DecisionFor(net, rules, q).matched
    ensures var n := net.trim(DecisionFor(net, rules, q).egressNodeID); n in byNode && e.target == byNode[n]
  {
    hide Kept, Entries, DecisionFor;
    KeptSubset(net, Entries(net, rules, byNode, qs));
    q := EntryReason(net, rules, byNode, qs, e);
  }

  lemma KeptIsDeployable(net: Net, rules: Rules, byNode: map<string, EgressTarget>, o: PlanOptions, qs: seq<Request>,
                         k0: Kernel)
    requires DeployableOn(net, o, qs, byNode, k0)
    ensures Deployable(net, o, Kept(net, Entries(net, rules, byNode, qs)), k0)
  {
    hide Kept, Entries, DecisionFor, EntryFor, AddrOf;
    var es := Entries(net, rules, byNode, qs);
    var kept := Kept(net, es);
    KeptSubset(net, es);
    EntriesAreFew(net, rules, byNode, qs);
    forall i | 0 <= i < |kept|
      ensures kept[i].addr.family == V4 && exists n :: n in byNode && kept[i].target == byNode[n]
    {
      var q := EntryNode(net, rules, byNode, qs, kept[i]);
    }
  }

  /** End to end. On a deployable kernel the gateway's own sorted, rendered and applied plan sends a LAN
      packet to an observed address out through the egress node the policy decided for that observation,
      and nowhere else; a packet to an address no matched observation mentions keeps its marks. */
  lemma ObservedTrafficLeavesAsDecided(
    net: Net, rules: Rules, targets: seq<EgressTarget>, options: PlanOptions, observations: seq<Request>,
    byNode: map<string, EgressTarget>, k0: Kernel, s: seq<RouteRule>, lan: string, p: Packet, marks: Marks)
    requires HostLaws(net) && Plannable(net, rules, targets, options, observations, byNode)
    requires Consistent(net, rules, byNode, observations) && AllRepresented(net, rules, byNode, observations)
    requires DeployableOn(net, NormalizePlanOptions(net, options).value, observations, byNode, k0)
    requires OrderOf(s, PlanFor(net, rules, options, observations, byNode), RuleBefore) && OnInterface(lan, p)
    ensures IpRun(k0, Up(net, s, |s|)).Some?
    ensures var k, out := IpRun(k0, Up(net, s, |s|)).value, RunChain(net, PolicyChain(net, lan, s), p, marks);
            forall q ::
              q in observations && AddrOf(net, q) == Some(Destination(p)) && DecisionFor(net, rules, q).matched ==>
              LeavesVia(k, out.meta, p, byNode, net.trim(DecisionFor(net, rules, q).egressNodeID))
    ensures (forall q :: q in observations && AddrOf(net, q) == Some(Destination(p)) ==>
              !DecisionFor(net, rules, q).matched)
            ==> RunChain(net, PolicyChain(net, lan, s), p, marks) == marks
  {
    hide HostLaws, Plannable, Consistent, AllRepresented, DeployableOn, Numbered, Kept, Entries, NormalizePlanOptions;
    hide ByKey;
    hide OrderOf, Up, IpRun, PolicyChain, RunChain, DecisionFor, LeavesVia, Deployable, AllPrintable, LastMark;
    assert NormalizePlanOptions(net, options).Ok? by {
      PlannableOptions(net, rules, targets, options, observations, byNode);
    }
    var o, raw := NormalizePlanOptions(net, options).value, net.trim(options.destCIDR);
    var qs := StableSort(observations, ByKey(net));
    var kept := Kept(net, Entries(net, rules, byNode, qs));
    SameMembers(qs, observations);
    SameDeployment(net, o, observations, qs, byNode, k0);
    KeptIsDeployable(net, rules, byNode, o, qs, k0);
    KeptArePrintable(net, rules, byNode, qs);
    DeployableCounts(net, o, kept, k0);
    PlannedOrderIsKept(net, o, raw, kept, s);
    PlanInstalls(net, o, raw, kept, k0);
    PolicyChainIsLastMatch(net, lan, s, p, marks);
    forall q | q in observations && AddrOf(net, q) == Some(Destination(p)) && DecisionFor(net, rules, q).matched
      ensures LeavesVia(IpRun(k0, Up(net, s, |s|)).value, LastMark(net, s, Destination(p), marks.meta), p, byNode,
                        net.trim(DecisionFor(net, rules, q).egressNodeID))
    {
      MatchedLeaves(net, rules, targets, options, observations, byNode, k0, kept, q, p, marks.meta);
    }
    if forall q :: q in observations && AddrOf(net, q) == Some(Destination(p)) ==> !DecisionFor(net, rules, q).matched {
      UnmatchedStays(net, rules, byNode, o, raw, observations, kept, Destination(p), marks.meta);
    }
  }

  /** The packet leaves through the egress node `n` and nowhere else. */
  ghost predicate LeavesVia(k: Kernel, mark: int, p: Packet, byNode: map<string, EgressTarget>, n: string) {
    n in byNode && OnlyVia(k, mark, Destination(p), Hop(byNode[n].gateway, byNode[n].iface))
  }

  lemma PlannableOptions(net: Net, rules: Rules, targets: seq<EgressTarget>, options: PlanOptions,
                         observations: seq<Request>, byNode: map<string, EgressTarget>)
    requires Plannable(net, rules, targets, options, observations, byNode)
    ensures NormalizePlanOptions(net, options).Ok?
    ensures forall q :: q in observations ==> EntryFor(net, rules, byNode, q).Ok?
  {
    hide EntryFor, ValidRule;
  }

  lemma SameDeployment(net: Net, o: PlanOptions, a: seq<Request>, b: seq<Request>, byNode: map<string, EgressTarget>,
                       k0: Kernel)
    requires DeployableOn(net, o, a, byNode, k0) && |a| == |b| && forall q :: q in a <==> q in b
    ensures DeployableOn(net, o, b, byNode, k0)
  {
    hide AddrOf;
  }

  lemma DeployableCounts(net: Net, o: PlanOptions, es: seq<Entry>, k0: Kernel)
    requires Deployable(net, o, es, k0)
    ensures NoOverflow(o, |es|)
  {
  }

  lemma KeptArePrintable(net: Net, rules: Rules, byNode: map<string, EgressTarget>, qs: seq<Request>)
    requires HostLaws(net)
    ensures AllPrintable(net, Kept(net, Entries(net, rules, byNode, qs)))
  {
    hide HostLaws, Entries, Kept, Printable;
    EntriesArePrintable(net, rules, byNode, qs);
    KeptSubset(net, Entries(net, rules, byNode, qs));
  }

  lemma MatchedLeaves(net: Net, rules: Rules, targets: seq<EgressTarget>, options: PlanOptions,
                      observations: seq<Request>, byNode: map<string, EgressTarget>, k0: Kernel,
                      kept: seq<Entry>, q: Request, p: Packet, mark: int)
    requires Plannable(net, rules, targets, options, observations, byNode)
    requires Consistent(net, rules, byNode, observations) && AllRepresented(net, rules, byNode, observations)
    requires kept == Kept(net, Entries(net, rules, byNode, StableSort(observations, ByKey(net))))
    requires AllPrintable(net, kept) && Deployable(net, NormalizePlanOptions(net, options).value, kept, k0)
    requires DeployableOn(net, NormalizePlanOptions(net, options).value, observations, byNode, k0)
    requires q in observations && AddrOf(net, q) == Some(Destination(p)) && DecisionFor(net, rules, q).matched
    ensures var s := Numbered(net, NormalizePlanOptions(net, options).value, net.trim(options.destCIDR), kept);
            IpRun(k0, Up(net, s, |s|)).Some?
            && LeavesVia(IpRun(k0, Up(net, s, |s|)).value, LastMark(net, s, Destination(p), mark), p, byNode,
                         net.trim(DecisionFor(net, rules, q).egressNodeID))
  {
    hide Plannable, Numbered, Kept, Entries, NormalizePlanOptions, ByKey, Up, IpRun, DecisionFor, AllPrintable;
    hide LastMark, OnlyVia;
    hide Represented, Deployable;
    PlannableOptions(net, rules, targets, options, observations, byNode);
    var qs := StableSort(observations, ByKey(net));
    SameMembers(qs, observations);
    var dst := Destination(p);
    assert ChosenTable(net, rules, byNode, q).Some? && Represented(net, Entries(net, rules, byNode, qs), dst);
    KeptRepresents(net, Entries(net, rules, byNode, qs), dst);
    var i := LastWith(kept, dst);
    var q2 := EntryNode(net, rules, byNode, qs, kept[i]);
    assert AddrOf(net, q2) == AddrOf(net, q)
           && ChosenTable(net, rules, byNode, q2) == ChosenTable(net, rules, byNode, q);
    PlannedHop(net, NormalizePlanOptions(net, options).value, net.trim(options.destCIDR), kept, k0, i, dst, mark);
  }

  lemma UnmatchedStays(net: Net, rules: Rules, byNode: map<string, EgressTarget>, o: PlanOptions, raw: string,
                       observations: seq<Request>, kept: seq<Entry>, dst: Addr, mark: int)
    requires kept == Kept(net, Entries(net, rules, byNode, StableSort(observations, ByKey(net))))
             && AllPrintable(net, kept)
    requires forall q :: q in observations && AddrOf(net, q) == Some(dst) ==> !DecisionFor(net, rules, q).matched
    ensures LastMark(net, Numbered(net, o, raw, kept), dst, mark) == mark
  {
    hide Kept, Entries, ByKey, DecisionFor, Printable, RuleFor, MarksPacket, EntryFor;
    var qs := StableSort(observations, ByKey(net));
    SameMembers(qs, observations);
    var s := Numbered(net, o, raw, kept);
    forall i | 0 <= i < |s| ensures !MarksPacket(net, s[i], dst) {
      assert kept[i] in kept;
      var q := EntryNode(net, rules, byNode, qs, kept[i]);
      NumberedMatches(net, o, raw, kept, i, dst);
    }
    LastMarkUnmatched(net, s, dst, mark);
  }

  // ---- whole policies: the last rule wins, not the first ----

  predicate Covers(net: Net, r: Rule, dst: Addr) { net.trim(r.ipCIDR) != "" && InCidr(net, net.trim(r.ipCIDR), dst) }

  lemma PolicyPlanAt(net: Net, o: PlanOptions, byNode: map<string, EgressTarget>, rules: seq<Rule>,
                     planned: seq<RouteRule>, i: nat, dst: Addr)
    requires PlansPolicy(net, o, byNode, rules, planned) && NoOverflow(o, |planned|) && i < |planned|
    ensures var ranked := StableSort(rules, Before);
            && planned[i].mark == o.markBase + i && planned[i].table == byNode[net.trim(ranked[i].egressNodeID)].table
            && (MarksPacket(net, planned[i], dst) <==> Covers(net, ranked[i], dst))
  {
  }

  /** A planned policy sends an address to the egress of the lowest-ranked rule covering it. */
  lemma PolicyPlanTakesLowest(net: Net, o: PlanOptions, byNode: map<string, EgressTarget>, rules: seq<Rule>,
                              planned: seq<RouteRule>, dst: Addr, i: nat)
    requires PlansPolicy(net, o, byNode, rules, planned) && NoOverflow(o, |planned|) && i < |planned|
    requires var ranked := StableSort(rules, Before);
             Covers(net, ranked[i], dst) && forall j :: i < j < |ranked| ==> !Covers(net, ranked[j], dst)
    ensures RoutedTable(net, planned, dst) == Some(byNode[net.trim(StableSort(rules, Before)[i].egressNodeID)].table)
  {
    hide Covers, MarksPacket, Before, PolicyRouteRule, RoutedTable;
    var ranked := StableSort(rules, Before);
    forall j | 0 <= j < |ranked|
      ensures planned[j].mark == o.markBase + j && (MarksPacket(net, planned[j], dst) <==> Covers(net, ranked[j], dst))
    {
      PolicyPlanAt(net, o, byNode, rules, planned, j, dst);
    }
    PolicyPlanAt(net, o, byNode, rules, planned, i, dst);
    LastMatchTable(net, planned, dst, i);
  }

  lemma PolicyPlanUncovered(net: Net, o: PlanOptions, byNode: map<string, EgressTarget>, rules: seq<Rule>,
                            planned: seq<RouteRule>, dst: Addr)
    requires PlansPolicy(net, o, byNode, rules, planned) && NoOverflow(o, |planned|)
    requires var ranked := StableSort(rules, Before); forall i :: 0 <= i < |ranked| ==> !Covers(net, ranked[i], dst)
    ensures RoutedTable(net, planned, dst) == None
  {
    hide Covers, MarksPacket, Before, PolicyRouteRule;
    forall j | 0 <= j < |planned| ensures !MarksPacket(net, planned[j], dst) {
      PolicyPlanAt(net, o, byNode, rules, planned, j, dst);
    }
    LastMarkUnmatched(net, planned, dst, 0);
  }

  /** Valid rules of one tenant that match by CIDR alone. */
  ghost predicate CidrOnly(net: Net, rules: seq<Rule>, tenantID: string) {
    forall r :: r in rules ==>
      r.tenantID == tenantID && r.domainSuffix == "" && r.asn == 0 && r.trafficClass == ""
      && net.parseCIDR(r.ipCIDR).Some?
  }

  /** Text that parses as a CIDR has no blank edges and is not empty. */
  ghost predicate CidrTextIsTrimmed(net: Net) {
    forall s :: net.parseCIDR(s).Some? ==> s != "" && net.trim(s) == s
  }

  /** The highest-ranked rule covering the address is at `i`, and the lowest-ranked at `l`. */
  ghost predicate CoveredBetween(net: Net, ranked: seq<Rule>, dst: Addr, i: int, l: int) {
    && 0 <= i <= l < |ranked| && Covers(net, ranked[i], dst) && Covers(net, ranked[l], dst)
    && (forall j :: 0 <= j < i ==> !Covers(net, ranked[j], dst))
    && (forall j :: l < j < |ranked| ==> !Covers(net, ranked[j], dst))
  }

  /** The table of the egress node the engine decides for. */
  function EngineTable(net: Net, byNode: map<string, EgressTarget>, rules: seq<Rule>, q: Request): Option<int> {
    var d := Decide(net, rules, q);
    if d.matched && net.trim(d.egressNodeID) in byNode then Some(byNode[net.trim(d.egressNodeID)].table) else None
  }

  lemma AppliesIsCovers(net: Net, rules: seq<Rule>, q: Request, dst: Addr, r: Rule)
    requires CidrOnly(net, rules, q.tenantID) && CidrTextIsTrimmed(net) && net.parseIP(q.ip) == Some(dst) && r in rules
    ensures Applies(net, q)(r) <==> Covers(net, r, dst)
  {
    hide Contains;
  }

  /** The engine takes the highest-ranked covering rule. */
  lemma EngineTakesHighest(net: Net, byNode: map<string, EgressTarget>, rules: seq<Rule>, q: Request, dst: Addr, i: nat)
    requires CidrOnly(net, rules, q.tenantID) && CidrTextIsTrimmed(net) && net.parseIP(q.ip) == Some(dst)
    requires KnownEgress(net, byNode, StableSort(rules, Before))
    requires var ranked := StableSort(rules, Before);
             i < |ranked| && Covers(net, ranked[i], dst) && forall j :: 0 <= j < i ==> !Covers(net, ranked[j], dst)
    ensures EngineTable(net, byNode, rules, q) ==
              Some(byNode[net.trim(StableSort(rules, Before)[i].egressNodeID)].table)
  {
    hide Covers, Applies, Before, CidrOnly, CidrTextIsTrimmed, Decide;
    var ranked := StableSort(rules, Before);
    SameMembers(ranked, rules);
    forall j | 0 <= j < |ranked| ensures Applies(net, q)(ranked[j]) <==> Covers(net, ranked[j], dst) {
      assert ranked[j] in rules;
      AppliesIsCovers(net, rules, q, dst, ranked[j]);
    }
    EngineIsArgmax(net, rules, q);
    FirstSatIs(ranked, Applies(net, q), i);
  }

  lemma EngineUncovered(net: Net, byNode: map<string, EgressTarget>, rules: seq<Rule>, q: Request, dst: Addr)
    requires CidrOnly(net, rules, q.tenantID) && CidrTextIsTrimmed(net) && net.parseIP(q.ip) == Some(dst)
    requires var ranked := StableSort(rules, Before); forall i :: 0 <= i < |ranked| ==> !Covers(net, ranked[i], dst)
    ensures EngineTable(net, byNode, rules, q) == None
  {
    hide Covers, Applies, Before, CidrOnly, CidrTextIsTrimmed, Decide;
    var ranked := StableSort(rules, Before);
    SameMembers(ranked, rules);
    EngineIsArgmax(net, rules, q);
    if r :| r in rules && Applies(net, q)(r) {
      assert r in ranked;
      AppliesIsCovers(net, rules, q, dst, r);
    }
  }

  /** A planned policy of CIDR-only rules sends an address where the engine would exactly when no rule
      covers it, or the highest- and the lowest-ranked covering rules lead to the same table. */
  lemma PolicyAgreementIff(net: Net, o: PlanOptions, byNode: map<string, EgressTarget>, rules: seq<Rule>,
                           planned: seq<RouteRule>, q: Request, dst: Addr)
    requires PlansPolicy(net, o, byNode, rules, planned) && NoOverflow(o, |planned|)
    requires CidrOnly(net, rules, q.tenantID) && CidrTextIsTrimmed(net) && net.parseIP(q.ip) == Some(dst)
    ensures var ranked := StableSort(rules, Before);
            RoutedTable(net, planned, dst) == EngineTable(net, byNode, rules, q) <==>
            forall i, l :: CoveredBetween(net, ranked, dst, i, l) ==>
              byNode[net.trim(ranked[i].egressNodeID)].table == byNode[net.trim(ranked[l].egressNodeID)].table
  {
    hide Covers, Before, PolicyRouteRule, CidrOnly, RoutedTable, EngineTable, CidrTextIsTrimmed;
    var ranked := StableSort(rules, Before);
    if c :| 0 <= c < |ranked| && Covers(net, ranked[c], dst) {
      var i, l := CoverEnds(net, ranked, dst, c);
      EngineTakesHighest(net, byNode, rules, q, dst, i);
      PolicyPlanTakesLowest(net, o, byNode, rules, planned, dst, l);
      assert CoveredBetween(net, ranked, dst, i, l);
      forall x, y | CoveredBetween(net, ranked, dst, x, y) ensures x == i && y == l { }
    } else {
      EngineUncovered(net, byNode, rules, q, dst);
      PolicyPlanUncovered(net, o, byNode, rules, planned, dst);
    }
  }

  lemma CoverEnds(net: Net, ranked: seq<Rule>, dst: Addr, c: nat) returns (i: nat, l: nat)
    requires c < |ranked| && Covers(net, ranked[c], dst)
    ensures CoveredBetween(net, ranked, dst, i, l)
  {
    hide Covers;
    i, l := 0, |ranked| - 1;
    while !Covers(net, ranked[i], dst)
      invariant i <= c && forall j :: 0 <= j < i ==> !Covers(net, ranked[j], dst)
      decreases c - i
    {
      i := i + 1;
    }
    while !Covers(net, ranked[l], dst)
      invariant c <= l < |ranked| && forall j :: l < j < |ranked| ==> !Covers(net, ranked[j], dst)
      decreases l
    {
      l := l - 1;
    }
  }

  /** In particular they agree wherever at most one rule covers the address. */
  lemma DisjointPoliciesAgree(net: Net, o: PlanOptions, byNode: map<string, EgressTarget>, rules: seq<Rule>,
                              planned: seq<RouteRule>, q: Request, dst: Addr)
    requires PlansPolicy(net, o, byNode, rules, planned) && NoOverflow(o, |planned|)
    requires CidrOnly(net, rules, q.tenantID) && CidrTextIsTrimmed(net) && net.parseIP(q.ip) == Some(dst)
    requires var ranked := StableSort(rules, Before);
             forall i, j :: 0 <= i < j < |ranked| ==> !(Covers(net, ranked[i], dst) && Covers(net, ranked[j], dst))
    ensures RoutedTable(net, planned, dst) == EngineTable(net, byNode, rules, q)
  {
    hide Covers, Before, PolicyRouteRule, CidrOnly, RoutedTable, EngineTable, CidrTextIsTrimmed;
    PolicyAgreementIff(net, o, byNode, rules, planned, q, dst);
  }

  /** Two rules of different priority and egress table covering one address: gateway and engine disagree. */
  lemma OverlapDisagrees(net: Net, o: PlanOptions, byNode: map<string, EgressTarget>, high: Rule, low: Rule,
                         planned: seq<RouteRule>, q: Request, dst: Addr)
    requires PlansPolicy(net, o, byNode, [high, low], planned) && NoOverflow(o, 2)
    requires CidrOnly(net, [high, low], q.tenantID) && CidrTextIsTrimmed(net) && net.parseIP(q.ip) == Some(dst)
    requires high.priority > low.priority && Covers(net, high, dst) && Covers(net, low, dst)
    requires net.trim(high.egressNodeID) in byNode && net.trim(low.egressNodeID) in byNode
    requires byNode[net.trim(high.egressNodeID)].table != byNode[net.trim(low.egressNodeID)].table
    ensures RoutedTable(net, planned, dst) == Some(byNode[net.trim(low.egressNodeID)].table)
    ensures EngineTable(net, byNode, [high, low], q) == Some(byNode[net.trim(high.egressNodeID)].table)
  {
    assert StableSort([high, low], Before) == [high, low] by { RankOfTwo(high, low); }
    hide Covers, Before, PolicyRouteRule, CidrOnly, RoutedTable, EngineTable, CidrTextIsTrimmed, StableSort;
    PolicyPlanTakesLowest(net, o, byNode, [high, low], planned, dst, 1);
    EngineTakesHighest(net, byNode, [high, low], q, dst, 0);
  }

  lemma RankOfTwo(high: Rule, low: Rule)
    requires high.priority > low.priority
    ensures StableSort([high, low], Before) == [high, low]
  {
    assert [high, low][1..] == [low] && [low][1..] == [];
    assert StableSort([low], Before) == [low];
  }

  lemma {:induction false} FirstSatIs<T>(s: seq<T>, p: T -> bool, i: nat)
    requires i < |s| && p(s[i]) && forall j :: 0 <= j < i ==> !p(s[j])
    ensures FirstSat(s, p) == Some(s[i])
  {
    if i > 0 { FirstSatIs(s[1..], p, i - 1); }
  }
}
