/** What each call of the repository is for: when it is taken, what can be read back, and what it leaves alone. */
module StoreReadBack {
  import opened Text
  import opened Sorting
  import opened Network
  import opened Policy
  import opened Store

  /** The names are not blank. */
  ghost predicate Given(net: Net, names: seq<string>) { forall i :: 0 <= i < |names| ==> net.trim(names[i]) != "" }

  /** A call at the given times, not cancelled. */
  function Now(command: Command, stamp: Time, audited: Time): Call { Call(command, false, stamp, audited) }

  /** One event was appended to the tenant's log, numbered by its place; all other logs are as before. */
  ghost predicate Audits(before: State, after: State, tenantID: string, actor: string, action: string,
                         objectType: string, objectID: string, at: Time) {
    var log := LogOf(before.audit, tenantID);
    && LogOf(after.audit, tenantID) ==
       log + [AuditEvent(tenantID + "-" + Padded(|log| + 1, 6), tenantID, actor, action, objectType, objectID, "", at)]
    && forall t :: t != tenantID ==> LogOf(after.audit, t) == LogOf(before.audit, t)
  }

  /** Only the tenant's row changed, to `row`. */
  ghost predicate OnlyRow<V>(before: Nested<V>, after: Nested<V>, tenantID: string, row: map<string, V>) {
    Row(after, tenantID) == row && forall t :: t != tenantID ==> Row(after, t) == Row(before, t)
  }

  /** A cancelled or refused call changes nothing. */
  lemma RefusedChangesNothing(lib: Lib, s: State, c: Call)
    ensures !Accepts(lib, s, c) ==> Step(lib, s, c) == s
    ensures c.cancelled ==> !Accepts(lib, s, c)
  {
    hide Stored, EventOf;
  }

  /** A taken call changes the records as `Stored` says and appends its event to one log. */
  lemma TakenAppends(lib: Lib, s: State, c: Call)
    requires Accepts(lib, s, c)
    ensures var after, e := Step(lib, s, c), EventOf(s, c);
            && after == Stored(lib, s, c).(audit := after.audit)
            && LogOf(after.audit, e.tenantID) == LogOf(s.audit, e.tenantID) + [e]
            && forall t :: t != e.tenantID ==> LogOf(after.audit, t) == LogOf(s.audit, t)
  {
    hide Accepts, Stored, EventOf;
  }

  lemma TenantAccepted(lib: Lib, s: State, t: Tenant, stamp: Time, audited: Time)
    ensures Accepts(lib, s, Now(CreateTenant(t), stamp, audited)) <==>
              Given(lib.net, [t.id, t.name]) && t.id !in s.tenants
  {
    hide Padded;
    var names := [t.id, t.name];
    assert names[0] == t.id && names[1] == t.name;
  }

  lemma TenantReadBack(lib: Lib, s: State, t: Tenant, stamp: Time, audited: Time)
    requires Accepts(lib, s, Now(CreateTenant(t), stamp, audited))
    ensures var c := Now(CreateTenant(t), stamp, audited);
            var after := Step(lib, s, c);
            && after.tenants == s.tenants[t.id := Tenant(t.id, t.name, stamp)]
            && after == s.(tenants := after.tenants, audit := after.audit)
            && Audits(s, after, t.id, "system", "tenant.create", "tenant", t.id, audited)
  {
    hide Step, Padded, Given, ValidTenant, ValidDevice, ValidNode, ValidBeat, ValidRule, ValidBundle, ValidReport;
    TakenAppends(lib, s, Now(CreateTenant(t), stamp, audited));
  }

  lemma DeviceAccepted(lib: Lib, s: State, d: Device, stamp: Time, audited: Time)
    ensures Accepts(lib, s, Now(RegisterDevice(d), stamp, audited)) <==>
            Given(lib.net, [d.id, d.tenantID, d.name]) && d.kind != "" && d.tenantID in s.tenants
  {
    hide Padded;
    var names := [d.id, d.tenantID, d.name];
    assert names[0] == d.id && names[1] == d.tenantID && names[2] == d.name;
  }

  lemma DeviceReadBack(lib: Lib, s: State, d: Device, stamp: Time, audited: Time)
    requires Accepts(lib, s, Now(RegisterDevice(d), stamp, audited))
    ensures var c := Now(RegisterDevice(d), stamp, audited);
            var after := Step(lib, s, c);
            var kept := Device(d.id, d.tenantID, d.siteID, d.kind, d.name, d.platform, if d.status != ""
                        then d.status else "registered",
                               if d.configVersion != "" then d.configVersion else "initial", stamp, stamp);
            && OnlyRow(s.devices, after.devices, d.tenantID, Row(s.devices, d.tenantID)[d.id := kept])
            && after == s.(devices := after.devices, audit := after.audit)
            && Audits(s, after, d.tenantID, d.id, "device.register", "device", d.id, audited)
  {
    hide Step, Padded, Given, ValidTenant, ValidDevice, ValidNode, ValidBeat, ValidRule, ValidBundle, ValidReport;
    TakenAppends(lib, s, Now(RegisterDevice(d), stamp, audited));
  }

  lemma NodeAccepted(lib: Lib, s: State, n: Node, stamp: Time, audited: Time)
    ensures Accepts(lib, s, Now(RegisterNode(n), stamp, audited)) <==>
            Given(lib.net, [n.id, n.tenantID, n.region]) && n.role != "" && n.tenantID in s.tenants
  {
    hide Padded;
    var names := [n.id, n.tenantID, n.region];
    assert names[0] == n.id && names[1] == n.tenantID && names[2] == n.region;
  }

  lemma NodeReadBack(lib: Lib, s: State, n: Node, stamp: Time, audited: Time)
    requires Accepts(lib, s, Now(RegisterNode(n), stamp, audited))
    ensures var c := Now(RegisterNode(n), stamp, audited);
            var after := Step(lib, s, c);
            var kept := Node(n.id, n.tenantID, n.role, n.region, n.endpoint, n.healthy, stamp, stamp);
            && OnlyRow(s.nodes, after.nodes, n.tenantID, Row(s.nodes, n.tenantID)[n.id := kept])
            && after == s.(nodes := after.nodes, audit := after.audit)
            && Audits(s, after, n.tenantID, n.id, "node.register", "node", n.id, audited)
  {
    hide Step, Padded, Given, ValidTenant, ValidDevice, ValidNode, ValidBeat, ValidRule, ValidBundle, ValidReport;
    TakenAppends(lib, s, Now(RegisterNode(n), stamp, audited));
  }

  /** A heartbeat reports health and time, and a new endpoint only if it names one. */
  lemma HeartbeatAccepted(lib: Lib, s: State, b: Beat, stamp: Time, audited: Time)
    ensures Accepts(lib, s, Now(RecordNodeHeartbeat(b), stamp, audited)) <==>
            Given(lib.net, [b.tenantID, b.nodeID]) && b.tenantID in s.tenants && b.nodeID in Row(s.nodes, b.tenantID)
  {
    hide Padded;
    var names := [b.tenantID, b.nodeID];
    assert names[0] == b.tenantID && names[1] == b.nodeID;
  }

  lemma HeartbeatReadBack(lib: Lib, s: State, b: Beat, stamp: Time, audited: Time)
    requires Accepts(lib, s, Now(RecordNodeHeartbeat(b), stamp, audited))
    ensures var c := Now(RecordNodeHeartbeat(b), stamp, audited);
            var after, row := Step(lib, s, c), Row(s.nodes, b.tenantID);
            var n := row[b.nodeID];
            var kept := Node(n.id, n.tenantID, n.role, n.region, if b.endpoint == "" then n.endpoint else b.endpoint,
                             b.healthy, n.createdAt, stamp);
            && OnlyRow(s.nodes, after.nodes, b.tenantID, row[b.nodeID := kept])
            && after == s.(nodes := after.nodes, audit := after.audit)
            && Audits(s, after, b.tenantID, b.nodeID, "node.heartbeat", "node", b.nodeID, audited)
  {
    hide Step, Padded, Given, ValidTenant, ValidDevice, ValidNode, ValidBeat, ValidRule, ValidBundle, ValidReport;
    TakenAppends(lib, s, Now(RecordNodeHeartbeat(b), stamp, audited));
  }

  /** A retired node is gone and every other stays. */
  lemma RetirementAccepted(lib: Lib, s: State, t: string, n: string, stamp: Time, audited: Time)
    ensures Accepts(lib, s, Now(RetireNode(t, n), stamp, audited)) <==>
            t != "" && n != "" && t in s.tenants && n in Row(s.nodes, t)
  {
    hide Padded;
  }

  lemma RetirementReadBack(lib: Lib, s: State, t: string, n: string, stamp: Time, audited: Time)
    requires Accepts(lib, s, Now(RetireNode(t, n), stamp, audited))
    ensures var c := Now(RetireNode(t, n), stamp, audited);
            var after := Step(lib, s, c);
            && OnlyRow(s.nodes, after.nodes, t, map id | id in Row(s.nodes, t) && id != n :: Row(s.nodes, t)[id])
            && after == s.(nodes := after.nodes, audit := after.audit)
            && Audits(s, after, t, n, "node.retire", "node", n, audited)
  {
    hide Step, Padded, Given, ValidTenant, ValidDevice, ValidNode, ValidBeat, ValidRule, ValidBundle, ValidReport;
    TakenAppends(lib, s, Now(RetireNode(t, n), stamp, audited));
  }

  /** A report is appended with its own metrics, its logs redacted one by one, and a time if it had none. */
  lemma TelemetryAccepted(lib: Lib, s: State, r: Report, stamp: Time, audited: Time)
    ensures Accepts(lib, s, Now(RecordTelemetry(r), stamp, audited)) <==>
            && Given(lib.net, [r.tenantID, r.subjectID]) && r.subjectKind != "" && r.tenantID in s.tenants
            && forall name :: name in r.metrics ==> lib.net.trim(name) != "" && !IsNegative(r.metrics[name])
  {
    hide Padded, IsNegative;
    var names := [r.tenantID, r.subjectID];
    assert names[0] == r.tenantID && names[1] == r.subjectID;
  }

  lemma TelemetryReadBack(lib: Lib, s: State, r: Report, stamp: Time, audited: Time)
    requires Accepts(lib, s, Now(RecordTelemetry(r), stamp, audited))
    ensures var c := Now(RecordTelemetry(r), stamp, audited);
            var after := Step(lib, s, c);
            && Appended(lib, LogOf(s.telemetry, r.tenantID), LogOf(after.telemetry, r.tenantID), r, stamp)
            && (forall t :: t != r.tenantID ==> LogOf(after.telemetry, t) == LogOf(s.telemetry, t))
            && after == s.(telemetry := after.telemetry, audit := after.audit)
            && Audits(s, after, r.tenantID, r.subjectID, "telemetry.record", r.subjectKind, r.subjectID, audited)
  {
    hide Step, Padded, Given, ValidTenant, ValidDevice, ValidNode, ValidBeat, ValidRule, ValidBundle, ValidReport;
    TakenAppends(lib, s, Now(RecordTelemetry(r), stamp, audited));
  }

  ghost predicate Appended(lib: Lib, before: seq<Report>, after: seq<Report>, r: Report, stamp: Time) {
    && |after| == |before| + 1 && after[..|before|] == before
    && var clean := after[|before|];
       && clean.tenantID == r.tenantID && clean.subjectID == r.subjectID && clean.subjectKind == r.subjectKind
       && clean.metrics == r.metrics && clean.timestamp == At(r.timestamp, stamp) && |clean.logs| == |r.logs|
       && forall i :: 0 <= i < |r.logs| ==> clean.logs[i] == lib.redact(r.logs[i])
  }

  lemma RuleAccepted(lib: Lib, s: State, r: Rule, stamp: Time, audited: Time)
    ensures Accepts(lib, s, Now(UpsertPolicyRule(r), stamp, audited)) <==>
              ValidRule(lib.net, r) && r.tenantID in s.tenants
  {
    hide Padded, ValidRule;
  }

  lemma RuleReadBack(lib: Lib, s: State, r: Rule, stamp: Time, audited: Time)
    requires Accepts(lib, s, Now(UpsertPolicyRule(r), stamp, audited))
    ensures var c := Now(UpsertPolicyRule(r), stamp, audited);
            var after := Step(lib, s, c);
            && OnlyRow(s.policies, after.policies, r.tenantID, Row(s.policies, r.tenantID)[r.id := r])
            && after == s.(policies := after.policies, audit := after.audit)
            && Audits(s, after, r.tenantID, "system", "policy.upsert", "policy_rule", r.id, audited)
  {
    hide Step, Padded, Given, ValidTenant, ValidDevice, ValidNode, ValidBeat, ValidRule, ValidBundle, ValidReport;
    TakenAppends(lib, s, Now(UpsertPolicyRule(r), stamp, audited));
  }

  lemma ConfigAccepted(lib: Lib, s: State, b: Bundle, stamp: Time, audited: Time)
    ensures Accepts(lib, s, Now(UpsertConfig(b), stamp, audited)) <==>
            Given(lib.net, [b.id, b.tenantID, b.targetID, b.version]) && b.tenantID in s.tenants
  {
    hide Padded;
    var names := [b.id, b.tenantID, b.targetID, b.version];
    assert names[0] == b.id && names[1] == b.tenantID && names[2] == b.targetID && names[3] == b.version;
  }

  lemma ConfigReadBack(lib: Lib, s: State, b: Bundle, stamp: Time, audited: Time)
    requires Accepts(lib, s, Now(UpsertConfig(b), stamp, audited))
    ensures var c := Now(UpsertConfig(b), stamp, audited);
            var after := Step(lib, s, c);
            var kept := Bundle(b.id, b.tenantID, b.targetID, b.version, b.values, stamp);
            && OnlyRow(s.configs, after.configs, b.tenantID, Row(s.configs, b.tenantID)[b.id := kept])
            && after == s.(configs := after.configs, audit := after.audit)
            && Audits(s, after, b.tenantID, "system", "config.upsert", "config_bundle", b.id, audited)
  {
    hide Step, Padded, Given, ValidTenant, ValidDevice, ValidNode, ValidBeat, ValidRule, ValidBundle, ValidReport;
    TakenAppends(lib, s, Now(UpsertConfig(b), stamp, audited));
  }

  /** A recorded event keeps what its caller gave; a missing id and time are filled in. */
  lemma EventReadBack(lib: Lib, s: State, e: AuditEvent, stamp: Time, audited: Time)
    requires e.tenantID != ""
    ensures var log := LogOf(s.audit, e.tenantID);
            var id := if e.id == "" then e.tenantID + "-" + Padded(|log| + 1, 6) else e.id;
            var kept := AuditEvent(id, e.tenantID, e.actor, e.action, e.objectType, e.objectID, e.message,
                                   At(e.createdAt, stamp));
            var c := Now(RecordAuditEvent(e), stamp, audited);
            var after := Step(lib, s, c);
            && (Accepts(lib, s, c) <==> Given(lib.net, [id, e.tenantID, e.action, e.objectType, e.objectID]))
            && (Accepts(lib, s, c) ==>
                  && after == s.(audit := after.audit) && LogOf(after.audit, e.tenantID) == log + [kept]
                  && forall t :: t != e.tenantID ==> LogOf(after.audit, t) == LogOf(s.audit, t))
  {
    hide Step, Padded;
    var id := if e.id == "" then e.tenantID + "-" + Padded(|LogOf(s.audit, e.tenantID)| + 1, 6) else e.id;
    var names := [id, e.tenantID, e.action, e.objectType, e.objectID];
    assert names[0] == id && names[1] == e.tenantID && names[2] == e.action && names[3] == e.objectType
           && names[4] == e.objectID;
    var c := Now(RecordAuditEvent(e), stamp, audited);
    assert Completed(s, e, stamp).id == id;
    if Accepts(lib, s, c) { TakenAppends(lib, s, c); }
  }

  /** After an upsert the policy decides by the tenant's old rules with the new one laid over them. */
  lemma UpsertDecides(lib: Lib, s: State, r: Rule, stamp: Time, audited: Time, q: Request, listed: seq<Rule>)
    requires ValidRule(lib.net, r) && r.tenantID in s.tenants && q.tenantID == r.tenantID
    requires Lists(listed, Row(Step(lib, s, Now(UpsertPolicyRule(r), stamp, audited)).policies, r.tenantID), RuleID)
    ensures forall x :: BestSat(listed, Before, Applies(lib.net, q)) == Some(x) <==>
                        BestOf(lib.net, Row(s.policies, r.tenantID)[r.id := r], q, x)
  {
    hide Step, Accepts, ValidRule, Lists, BestOf, Before, Applies;
    RuleAccepted(lib, s, r, stamp, audited);
    RuleReadBack(lib, s, r, stamp, audited);
    ListedDecision(lib.net, Row(s.policies, r.tenantID)[r.id := r], listed, q);
  }

  /** The first rule of a tenant decides every request it applies to. */
  lemma FirstRuleDecides(lib: Lib, s: State, r: Rule, stamp: Time, audited: Time, q: Request, listed: seq<Rule>)
    requires ValidRule(lib.net, r) && r.tenantID in s.tenants && q.tenantID == r.tenantID
    requires Row(s.policies, r.tenantID) == map[] && Applies(lib.net, q)(r)
    requires Lists(listed, Row(Step(lib, s, Now(UpsertPolicyRule(r), stamp, audited)).policies, r.tenantID), RuleID)
    ensures Decide(lib.net, listed, q).matched && Decide(lib.net, listed, q).egressNodeID == r.egressNodeID
  {
    hide Step, Accepts, ValidRule, Lists, Applies, BestSat;
    UpsertDecides(lib, s, r, stamp, audited, q, listed);
    assert !Before(r, r) by { StrLessIrreflexive(r.id); }
    hide Before;
    var row := map[][r.id := r];
    assert forall x: Rule :: x.id in row && row[x.id] == x ==> x == r;
    assert BestOf(lib.net, Row(s.policies, r.tenantID)[r.id := r], q, r);
    assert BestSat(listed, Before, Applies(lib.net, q)) == Some(r);
  }
}
