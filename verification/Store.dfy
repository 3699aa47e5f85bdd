/** The control plane's repository: tenants and everything filed under them, in memory and
    written through to a snapshot file. */
module Store {
  import opened Text
  import opened Sorting
  import opened Network
  import opened Policy

  datatype Tenant = Tenant(id: string, name: string, createdAt: Time)
  datatype Device = Device(
    id: string, tenantID: string, siteID: string, kind: string, name: string, platform: string,
    status: string, configVersion: string, createdAt: Time, updatedAt: Time)
  datatype Node = Node(
    id: string, tenantID: string, role: string, region: string, endpoint: string,
    healthy: bool, createdAt: Time, updatedAt: Time)
  datatype Beat = Beat(tenantID: string, nodeID: string, healthy: bool, endpoint: string)
  datatype Log = Log(level: string, message: string, fields: map<string, string>)
  datatype Report = Report(
    tenantID: string, subjectID: string, subjectKind: string, timestamp: Time,
    metrics: map<string, Float>, logs: seq<Log>)
  datatype Bundle = Bundle(
    id: string, tenantID: string, targetID: string, version: string,
    values: map<string, string>, createdAt: Time)
  datatype AuditEvent = AuditEvent(
    id: string, tenantID: string, actor: string, action: string,
    objectType: string, objectID: string, message: string, createdAt: Time)

  type Nested<V> = map<string, map<string, V>>
  type Logs<V> = map<string, seq<V>>

  /** The contents of the repository, and of a snapshot file. */
  datatype State = State(
    tenants: map<string, Tenant>,
    devices: Nested<Device>,
    nodes: Nested<Node>,
    policies: Nested<Rule>,
    configs: Nested<Bundle>,
    telemetry: Logs<Report>,
    audit: Logs<AuditEvent>)

  const EMPTY := State(map[], map[], map[], map[], map[], map[], map[])

  /** Reading a missing row of a Go map gives the empty row. */
  function Row<V>(m: Nested<V>, tenantID: string): map<string, V> { if tenantID in m then m[tenantID] else map[] }
  function LogOf<V>(m: Logs<V>, tenantID: string): seq<V> { if tenantID in m then m[tenantID] else [] }

  function Put<V>(m: Nested<V>, tenantID: string, id: string, v: V): Nested<V> {
    m[tenantID := Row(m, tenantID)[id := v]]
  }
  function Append<V>(m: Logs<V>, tenantID: string, v: V): Logs<V> { m[tenantID := LogOf(m, tenantID) + [v]] }

  // ---- validation ----

  predicate Blank(net: Net, s: string) { net.trim(s) == "" }
  predicate ValidTenant(net: Net, t: Tenant) { !Blank(net, t.id) && !Blank(net, t.name) }
  predicate ValidDevice(net: Net, d: Device) {
    !Blank(net, d.id) && !Blank(net, d.tenantID) && d.kind != "" && !Blank(net, d.name)
  }
  predicate ValidNode(net: Net, n: Node) {
    !Blank(net, n.id) && !Blank(net, n.tenantID) && n.role != "" && !Blank(net, n.region)
  }
  predicate ValidBeat(net: Net, b: Beat) { !Blank(net, b.tenantID) && !Blank(net, b.nodeID) }
  predicate ValidReport(net: Net, r: Report) {
    && !Blank(net, r.tenantID) && !Blank(net, r.subjectID) && r.subjectKind != ""
    && forall name :: name in r.metrics ==> !Blank(net, name) && !IsNegative(r.metrics[name])
  }
  predicate ValidBundle(net: Net, b: Bundle) {
    !Blank(net, b.id) && !Blank(net, b.tenantID) && !Blank(net, b.targetID) && !Blank(net, b.version)
  }
  predicate ValidEvent(net: Net, e: AuditEvent) {
    !Blank(net, e.id) && !Blank(net, e.tenantID) && !Blank(net, e.action) && !Blank(net, e.objectType)
    && !Blank(net, e.objectID)
  }

  // ---- one call ----

  datatype Command =
    | CreateTenant(tenant: Tenant)
    | RegisterDevice(device: Device)
    | RegisterNode(node: Node)
    | RecordNodeHeartbeat(beat: Beat)
    | RetireNode(tenantID: string, nodeID: string)
    | RecordTelemetry(report: Report)
    | UpsertPolicyRule(rule: Rule)
    | UpsertConfig(bundle: Bundle)
    | RecordAuditEvent(event: AuditEvent)

  /** A call: the command, whether its context was cancelled, and the clock when the record and its
      audit event are stamped. */
  datatype Call = Call(command: Command, cancelled: bool, stamp: Time, audited: Time)

  /** Library functions left uninterpreted: text, addresses, the redaction of one log record, and JSON. */
  datatype Lib = Lib(net: Net, redact: Log -> Log, encode: State -> Option<Bytes>, decode: Bytes -> Option<State>)

  /** `%s-%06d` of the tenant and the event's place in its log. */
  function EventID(tenantID: string, place: nat): string { tenantID + "-" + Padded(place, 6) }

  function Registered(d: Device, now: Time): Device {
    d.(createdAt := now, updatedAt := now,
       status := if d.status == "" then "registered" else d.status,
       configVersion := if d.configVersion == "" then "initial" else d.configVersion)
  }

  function Beaten(n: Node, b: Beat, now: Time): Node {
    n.(healthy := b.healthy, endpoint := if b.endpoint != "" then b.endpoint else n.endpoint, updatedAt := now)
  }

  function Redacted(lib: Lib, logs: seq<Log>): seq<Log> {
    seq(|logs|, i requires 0 <= i < |logs| => lib.redact(logs[i]))
  }

  function Sanitized(lib: Lib, r: Report, now: Time): Report {
    r.(timestamp := if r.timestamp == 0 then now else r.timestamp, logs := Redacted(lib, r.logs))
  }

  /** The event `RecordAuditEvent` appends when it is valid. */
  function Completed(s: State, e: AuditEvent, now: Time): AuditEvent {
    e.(id := if e.id == "" && e.tenantID != "" then EventID(e.tenantID, |LogOf(s.audit, e.tenantID)| + 1) else e.id,
       createdAt := if e.createdAt == 0 then now else e.createdAt)
  }

  /** Whether the repository takes the call. */
  predicate Accepts(lib: Lib, s: State, c: Call) {
    !c.cancelled &&
    match c.command
    case CreateTenant(t) => ValidTenant(lib.net, t) && t.id !in s.tenants
    case RegisterDevice(d) => ValidDevice(lib.net, d) && d.tenantID in s.tenants
    case RegisterNode(n) => ValidNode(lib.net, n) && n.tenantID in s.tenants
    case RecordNodeHeartbeat(b) => ValidBeat(lib.net, b) && b.tenantID in s.tenants
    && b.nodeID in Row(s.nodes, b.tenantID)
    case RetireNode(t, n) => t != "" && n != "" && t in s.tenants && n in Row(s.nodes, t)
    case RecordTelemetry(r) => ValidReport(lib.net, r) && r.tenantID in s.tenants
    case UpsertPolicyRule(r) => ValidRule(lib.net, r) && r.tenantID in s.tenants
    case UpsertConfig(b) => ValidBundle(lib.net, b) && b.tenantID in s.tenants
    case RecordAuditEvent(e) => ValidEvent(lib.net, Completed(s, e, c.stamp))
  }

  /** What an accepted call does to the records. */
  function Stored(lib: Lib, s: State, c: Call): (r: State)
    requires Accepts(lib, s, c)
    ensures r.tenants.Keys == s.tenants.Keys + if c.command.CreateTenant? then {c.command.tenant.id} else {}
    ensures !c.command.RecordTelemetry? ==> r.telemetry == s.telemetry
  {
    match c.command
    case CreateTenant(t) => s.(tenants := s.tenants[t.id := t.(createdAt := c.stamp)])
    case RegisterDevice(d) => s.(devices := Put(s.devices, d.tenantID, d.id, Registered(d, c.stamp)))
    case RegisterNode(n) => s.(nodes := Put(s.nodes, n.tenantID, n.id, n.(createdAt := c.stamp, updatedAt := c.stamp)))
    case RecordNodeHeartbeat(b) => s.(nodes :=
      Put(s.nodes, b.tenantID, b.nodeID, Beaten(s.nodes[b.tenantID][b.nodeID], b, c.stamp)))
    case RetireNode(t, n) => s.(nodes := s.nodes[t := s.nodes[t] - {n}])
    case RecordTelemetry(r) => s.(telemetry := Append(s.telemetry, r.tenantID, Sanitized(lib, r, c.stamp)))
    case UpsertPolicyRule(r) => s.(policies := Put(s.policies, r.tenantID, r.id, r))
    case UpsertConfig(b) => s.(configs := Put(s.configs, b.tenantID, b.id, b.(createdAt := c.stamp)))
    case RecordAuditEvent(e) => s
  }

  /** The event an accepted call leaves in its tenant's audit log. */
  function EventOf(s: State, c: Call): AuditEvent {
    match c.command
    case CreateTenant(t) => Event(s, t.id, "system", "tenant.create", "tenant", t.id, c.audited)
    case RegisterDevice(d) => Event(s, d.tenantID, d.id, "device.register", "device", d.id, c.audited)
    case RegisterNode(n) => Event(s, n.tenantID, n.id, "node.register", "node", n.id, c.audited)
    case RecordNodeHeartbeat(b) => Event(s, b.tenantID, b.nodeID, "node.heartbeat", "node", b.nodeID, c.audited)
    case RetireNode(t, n) => Event(s, t, n, "node.retire", "node", n, c.audited)
    case RecordTelemetry(r) => Event(s, r.tenantID, r.subjectID, "telemetry.record", r.subjectKind, r.subjectID,
                                     c.audited)
    case UpsertPolicyRule(r) => Event(s, r.tenantID, "system", "policy.upsert", "policy_rule", r.id, c.audited)
    case UpsertConfig(b) => Event(s, b.tenantID, "system", "config.upsert", "config_bundle", b.id, c.audited)
    case RecordAuditEvent(e) => Completed(s, e, c.stamp)
  }

  /** The event `auditLocked` appends. */
  function Event(s: State, tenantID: string, actor: string, action: string, objectType: string, objectID: string,
                 at: Time): AuditEvent {
    AuditEvent(EventID(tenantID, |LogOf(s.audit, tenantID)| + 1), tenantID, actor, action, objectType, objectID, "", at)
  }

  function Step(lib: Lib, s: State, c: Call): State {
    if !Accepts(lib, s, c) then s
    else Stored(lib, s, c).(audit := Append(s.audit, EventOf(s, c).tenantID, EventOf(s, c)))
  }

  // ---- what every reachable state satisfies ----

  /** Every cell sits under an existing tenant and fits its own keys. */
  ghost predicate Filed<V>(m: Nested<V>, tenants: map<string, Tenant>, fits: (string, string, V) -> bool) {
    forall t, id :: t in m && id in m[t] ==> t in tenants && fits(t, id, m[t][id])
  }

  ghost predicate AllFit<V>(t: string, log: seq<V>, fits: (string, V) -> bool) {
    forall i :: 0 <= i < |log| ==> fits(t, log[i])
  }

  ghost predicate Logged<V>(m: Logs<V>, tenants: map<string, Tenant>, fits: (string, V) -> bool) {
    forall t :: t in m ==> t in tenants && AllFit(t, m[t], fits)
  }

  function DeviceFits(net: Net): (string, string, Device) -> bool {
    (t: string, id: string, d: Device) => d.tenantID == t && d.id == id && ValidDevice(net, d)
  }
  function NodeFits(net: Net): (string, string, Node) -> bool {
    (t: string, id: string, n: Node) => n.tenantID == t && n.id == id && ValidNode(net, n)
  }
  function RuleFits(net: Net): (string, string, Rule) -> bool {
    (t: string, id: string, r: Rule) => r.tenantID == t && r.id == id && ValidRule(net, r)
  }
  function BundleFits(net: Net): (string, string, Bundle) -> bool {
    (t: string, id: string, b: Bundle) => b.tenantID == t && b.id == id && ValidBundle(net, b)
  }
  function ReportFits(net: Net): (string, Report) -> bool {
    (t: string, r: Report) => r.tenantID == t && ValidReport(net, r)
  }

  ghost predicate TenantsNamed(tenants: map<string, Tenant>) { forall id :: id in tenants ==> tenants[id].id == id }

  /** Audit events sit in their own tenant's log; the tenant need not exist. */
  ghost predicate EventsFiled(audit: Logs<AuditEvent>) {
    forall t, i :: t in audit && 0 <= i < |audit[t]| ==> audit[t][i].tenantID == t
  }

  ghost predicate Sound(lib: Lib, s: State) {
    && TenantsNamed(s.tenants) && EventsFiled(s.audit)
    && Filed(s.devices, s.tenants, DeviceFits(lib.net))
    && Filed(s.nodes, s.tenants, NodeFits(lib.net))
    && Filed(s.policies, s.tenants, RuleFits(lib.net))
    && Filed(s.configs, s.tenants, BundleFits(lib.net))
    && Logged(s.telemetry, s.tenants, ReportFits(lib.net))
  }

  lemma PutKeepsFiled<V>(m: Nested<V>, tenants: map<string, Tenant>, fits: (string, string, V) -> bool,
                         tenantID: string, id: string, v: V)
    requires Filed(m, tenants, fits) && tenantID in tenants && fits(tenantID, id, v)
    ensures Filed(Put(m, tenantID, id, v), tenants, fits)
  {
  }

  lemma AppendKeepsLogged<V>(m: Logs<V>, tenants: map<string, Tenant>, fits: (string, V) -> bool, tenantID: string,
                             v: V)
    requires Logged(m, tenants, fits) && tenantID in tenants && fits(tenantID, v)
    ensures Logged(Append(m, tenantID, v), tenants, fits)
  {
    assert AllFit(tenantID, LogOf(m, tenantID) + [v], fits);
  }

  lemma FiledCell<V>(m: Nested<V>, tenants: map<string, Tenant>, fits: (string, string, V) -> bool, tenantID: string,
                     id: string)
    requires Filed(m, tenants, fits) && tenantID in m && id in m[tenantID]
    ensures fits(tenantID, id, m[tenantID][id])
  {
  }

  lemma RemoveKeepsFiled<V>(m: Nested<V>, tenants: map<string, Tenant>, fits: (string, string, V) -> bool,
                            tenantID: string, id: string)
    requires Filed(m, tenants, fits) && tenantID in m
    ensures Filed(m[tenantID := m[tenantID] - {id}], tenants, fits)
  {
  }

  lemma TenantKeepsSound(lib: Lib, s: State, t: Tenant)
    requires Sound(lib, s) && t.id !in s.tenants
    ensures Sound(lib, s.(tenants := s.tenants[t.id := t]))
  {
    hide DeviceFits, NodeFits, RuleFits, BundleFits, ReportFits, EventsFiled;
    var more := s.tenants[t.id := t];
    assert Filed(s.devices, more, DeviceFits(lib.net));
    assert Filed(s.nodes, more, NodeFits(lib.net));
    assert Filed(s.policies, more, RuleFits(lib.net));
    assert Filed(s.configs, more, BundleFits(lib.net));
    assert Logged(s.telemetry, more, ReportFits(lib.net));
  }

  lemma DeviceKeepsSound(lib: Lib, s: State, d: Device, now: Time)
    requires Sound(lib, s) && ValidDevice(lib.net, d) && d.tenantID in s.tenants
    ensures Sound(lib, s.(devices := Put(s.devices, d.tenantID, d.id, Registered(d, now))))
  {
    hide Put, Append, Redacted, Filed, Logged, TenantsNamed, EventsFiled, ValidRule;
    var created := Registered(d, now);
    assert ValidDevice(lib.net, created);
    PutKeepsFiled(s.devices, s.tenants, DeviceFits(lib.net), d.tenantID, d.id, created);
  }

  lemma NodeKeepsSound(lib: Lib, s: State, n: Node, now: Time)
    requires Sound(lib, s) && ValidNode(lib.net, n) && n.tenantID in s.tenants
    ensures Sound(lib, s.(nodes := Put(s.nodes, n.tenantID, n.id, n.(createdAt := now, updatedAt := now))))
  {
    hide Put, Append, Redacted, Filed, Logged, TenantsNamed, EventsFiled, ValidRule;
    var created := n.(createdAt := now, updatedAt := now);
    assert ValidNode(lib.net, created);
    PutKeepsFiled(s.nodes, s.tenants, NodeFits(lib.net), n.tenantID, n.id, created);
  }

  lemma BeatKeepsSound(lib: Lib, s: State, b: Beat, now: Time)
    requires Sound(lib, s) && b.tenantID in s.tenants && b.nodeID in Row(s.nodes, b.tenantID)
    ensures Sound(lib, s.(nodes := Put(s.nodes, b.tenantID, b.nodeID, Beaten(s.nodes[b.tenantID][b.nodeID], b, now))))
  {
    hide Put, Append, Redacted, Filed, Logged, TenantsNamed, EventsFiled, ValidRule;
    FiledCell(s.nodes, s.tenants, NodeFits(lib.net), b.tenantID, b.nodeID);
    var beaten := Beaten(s.nodes[b.tenantID][b.nodeID], b, now);
    assert ValidNode(lib.net, beaten);
    PutKeepsFiled(s.nodes, s.tenants, NodeFits(lib.net), b.tenantID, b.nodeID, beaten);
  }

  lemma ReportKeepsSound(lib: Lib, s: State, r: Report, now: Time)
    requires Sound(lib, s) && ValidReport(lib.net, r) && r.tenantID in s.tenants
    ensures Sound(lib, s.(telemetry := Append(s.telemetry, r.tenantID, Sanitized(lib, r, now))))
  {
    hide Put, Append, Redacted, Filed, Logged, TenantsNamed, EventsFiled, ValidRule;
    var clean := Sanitized(lib, r, now);
    assert ValidReport(lib.net, clean);
    AppendKeepsLogged(s.telemetry, s.tenants, ReportFits(lib.net), r.tenantID, clean);
  }

  lemma BundleKeepsSound(lib: Lib, s: State, b: Bundle, now: Time)
    requires Sound(lib, s) && ValidBundle(lib.net, b) && b.tenantID in s.tenants
    ensures Sound(lib, s.(configs := Put(s.configs, b.tenantID, b.id, b.(createdAt := now))))
  {
    hide Put, Append, Redacted, Filed, Logged, TenantsNamed, EventsFiled, ValidRule;
    var created := b.(createdAt := now);
    assert ValidBundle(lib.net, created);
    PutKeepsFiled(s.configs, s.tenants, BundleFits(lib.net), b.tenantID, b.id, created);
  }

  lemma StoredKeepsSound(lib: Lib, s: State, c: Call)
    requires Sound(lib, s) && Accepts(lib, s, c)
    ensures Sound(lib, Stored(lib, s, c))
  {
    hide ValidTenant, ValidDevice, ValidNode, ValidBeat, ValidReport, ValidRule, ValidBundle, ValidEvent, Put, Append;
    hide Filed, Logged;
    match c.command {
      case CreateTenant(t) => TenantKeepsSound(lib, s, t.(createdAt := c.stamp));
      case RegisterDevice(d) => DeviceKeepsSound(lib, s, d, c.stamp);
      case RegisterNode(n) => NodeKeepsSound(lib, s, n, c.stamp);
      case RecordNodeHeartbeat(b) => BeatKeepsSound(lib, s, b, c.stamp);
      case RetireNode(t, n) => RemoveKeepsFiled(s.nodes, s.tenants, NodeFits(lib.net), t, n);
      case RecordTelemetry(r) => ReportKeepsSound(lib, s, r, c.stamp);
      case UpsertPolicyRule(r) => PutKeepsFiled(s.policies, s.tenants, RuleFits(lib.net), r.tenantID, r.id, r);
      case UpsertConfig(b) => BundleKeepsSound(lib, s, b, c.stamp);
      case RecordAuditEvent(_) =>
    }
  }

  /** Every call keeps the repository sound. */
  lemma StepKeepsSound(lib: Lib, s: State, c: Call)
    requires Sound(lib, s)
    ensures Sound(lib, Step(lib, s, c))
  {
    hide Accepts, Stored, Filed, Logged, TenantsNamed, EventOf;
    if Accepts(lib, s, c) {
      StoredKeepsSound(lib, s, c);
      var e := EventOf(s, c);
      assert EventsFiled(Append(s.audit, e.tenantID, e)) by { EventAppends(s.audit, e); }
    }
  }

  lemma EventAppends(audit: Logs<AuditEvent>, e: AuditEvent)
    requires EventsFiled(audit)
    ensures EventsFiled(Append(audit, e.tenantID, e))
  {
    var after: Logs<AuditEvent> := Append(audit, e.tenantID, e);
    forall t, i | t in after && 0 <= i < |after[t]| ensures after[t][i].tenantID == t {
      assert t != e.tenantID || i < |LogOf(audit, t)| ==> t in audit && after[t][i] == audit[t][i];
    }
  }

  // ---- the repository in memory ----

  /** Making the row first and then filling it, as the mutators do. */
  lemma RowThenCell<V>(m: Nested<V>, tenantID: string, id: string, v: V)
    ensures var made := if tenantID in m then m else m[tenantID := map[]];
            made[tenantID := made[tenantID][id := v]] == Put(m, tenantID, id, v)
  {
  }

  class Memory {
    const lib: Lib
    var tenants: map<string, Tenant>
    var devices: Nested<Device>
    var nodes: Nested<Node>
    var policies: Nested<Rule>
    var configs: Nested<Bundle>
    var telemetry: Logs<Report>
    var audit: Logs<AuditEvent>

    ghost function Contents(): State
      reads this
    {
      State(tenants, devices, nodes, policies, configs, telemetry, audit)
    }

    constructor (lib: Lib)
      ensures this.lib == lib && Contents() == EMPTY
    {
      this.lib := lib;
      tenants, devices, nodes, policies, configs, telemetry, audit := map[], map[], map[], map[], map[], map[], map[];
    }

    method AuditLocked(tenantID: string, actor: string, action: string, objectType: string, objectID: string, at: Time)
      modifies this`audit
      ensures audit ==
                old(Append(audit, tenantID, Event(Contents(), tenantID, actor, action, objectType, objectID, at)))
    {
      var log := if tenantID in audit then audit[tenantID] else [];
      var event := AuditEvent(EventID(tenantID, |log| + 1), tenantID, actor, action, objectType, objectID, "", at);
      audit := audit[tenantID := log + [event]];
    }

    method CreateTenant(tenant: Tenant, cancelled: bool, stamp: Time, audited: Time) returns (r: Outcome<Tenant>)
      modifies this
      ensures var c := Call(Command.CreateTenant(tenant), cancelled, stamp, audited);
              && Contents() == Step(lib, old(Contents()), c)
              && r == if Accepts(lib, old(Contents()), c) then Ok(tenants[tenant.id]) else Rejected
    {
      hide EventID, ValidTenant;
      if cancelled || !ValidTenant(lib.net, tenant) || tenant.id in tenants { return Rejected; }
      var created := tenant.(createdAt := stamp);
      tenants := tenants[created.id := created];
      AuditLocked(created.id, "system", "tenant.create", "tenant", created.id, audited);
      return Ok(created);
    }

    method RegisterDevice(device: Device, cancelled: bool, stamp: Time, audited: Time) returns (r: Outcome<Device>)
      modifies this
      ensures var c := Call(Command.RegisterDevice(device), cancelled, stamp, audited);
              && Contents() == Step(lib, old(Contents()), c)
              && r == if Accepts(lib, old(Contents()), c) then Ok(devices[device.tenantID][device.id]) else Rejected
    {
      hide Put, EventID, ValidDevice;
      if cancelled || !ValidDevice(lib.net, device) || device.tenantID !in tenants { return Rejected; }
      if device.tenantID !in devices { devices := devices[device.tenantID := map[]]; }
      var created := device.(createdAt := stamp, updatedAt := stamp);
      if created.status == "" { created := created.(status := "registered"); }
      if created.configVersion == "" { created := created.(configVersion := "initial"); }
      devices := devices[created.tenantID := devices[created.tenantID][created.id := created]];
      RowThenCell(old(devices), created.tenantID, created.id, created);
      AuditLocked(created.tenantID, created.id, "device.register", "device", created.id, audited);
      return Ok(created);
    }

    method RegisterNode(node: Node, cancelled: bool, stamp: Time, audited: Time) returns (r: Outcome<Node>)
      modifies this
      ensures var c := Call(Command.RegisterNode(node), cancelled, stamp, audited);
              && Contents() == Step(lib, old(Contents()), c)
              && r == if Accepts(lib, old(Contents()), c) then Ok(nodes[node.tenantID][node.id]) else Rejected
    {
      hide Put, EventID, ValidNode;
      if cancelled || !ValidNode(lib.net, node) || node.tenantID !in tenants { return Rejected; }
      if node.tenantID !in nodes { nodes := nodes[node.tenantID := map[]]; }
      var created := node.(createdAt := stamp, updatedAt := stamp);
      nodes := nodes[created.tenantID := nodes[created.tenantID][created.id := created]];
      RowThenCell(old(nodes), created.tenantID, created.id, created);
      AuditLocked(created.tenantID, created.id, "node.register", "node", created.id, audited);
      return Ok(created);
    }

    method RecordNodeHeartbeat(beat: Beat, cancelled: bool, stamp: Time, audited: Time) returns (r: Outcome<Node>)
      modifies this
      ensures var c := Call(Command.RecordNodeHeartbeat(beat), cancelled, stamp, audited);
              && Contents() == Step(lib, old(Contents()), c)
              && r == if Accepts(lib, old(Contents()), c) then Ok(nodes[beat.tenantID][beat.nodeID]) else Rejected
    {
      hide EventID, ValidBeat;
      if cancelled || !ValidBeat(lib.net, beat) || beat.tenantID !in tenants { return Rejected; }
      if beat.tenantID !in nodes || beat.nodeID !in nodes[beat.tenantID] { return Rejected; }
      var node := nodes[beat.tenantID][beat.nodeID].(healthy := beat.healthy);
      if beat.endpoint != "" { node := node.(endpoint := beat.endpoint); }
      node := node.(updatedAt := stamp);
      nodes := nodes[beat.tenantID := nodes[beat.tenantID][beat.nodeID := node]];
      AuditLocked(beat.tenantID, beat.nodeID, "node.heartbeat", "node", beat.nodeID, audited);
      return Ok(node);
    }

    method RetireNode(tenantID: string, nodeID: string, cancelled: bool, stamp: Time, audited: Time)
      returns (r: Outcome<Node>)
      modifies this
      ensures var c := Call(Command.RetireNode(tenantID, nodeID), cancelled, stamp, audited);
              && Contents() == Step(lib, old(Contents()), c)
              && r == if Accepts(lib, old(Contents()), c)
                      then Ok(old(nodes)[tenantID][nodeID].(healthy := false, updatedAt := stamp)) else Rejected
    {
      hide EventID;
      if cancelled || tenantID == "" || nodeID == "" || tenantID !in tenants { return Rejected; }
      if tenantID !in nodes || nodeID !in nodes[tenantID] { return Rejected; }
      var node := nodes[tenantID][nodeID];
      nodes := nodes[tenantID := nodes[tenantID] - {nodeID}];
      AuditLocked(tenantID, nodeID, "node.retire", "node", nodeID, audited);
      return Ok(node.(healthy := false, updatedAt := stamp));
    }

    method RecordTelemetry(report: Report, cancelled: bool, stamp: Time, audited: Time) returns (r: Outcome<Report>)
      modifies this
      ensures var c := Call(Command.RecordTelemetry(report), cancelled, stamp, audited);
              && Contents() == Step(lib, old(Contents()), c)
              && r == if Accepts(lib, old(Contents()), c) then Ok(Sanitized(lib, report, stamp)) else Rejected
    {
      hide EventID, ValidReport, Redacted;
      if cancelled || !ValidReport(lib.net, report) || report.tenantID !in tenants { return Rejected; }
      var clean := Sanitized(lib, report, stamp);
      var log := if clean.tenantID in telemetry then telemetry[clean.tenantID] else [];
      telemetry := telemetry[clean.tenantID := log + [clean]];
      AuditLocked(clean.tenantID, clean.subjectID, "telemetry.record", clean.subjectKind, clean.subjectID, audited);
      return Ok(clean);
    }

    method UpsertPolicyRule(rule: Rule, cancelled: bool, stamp: Time, audited: Time) returns (r: Outcome<Rule>)
      modifies this
      ensures var c := Call(Command.UpsertPolicyRule(rule), cancelled, stamp, audited);
              && Contents() == Step(lib, old(Contents()), c)
              && r == if Accepts(lib, old(Contents()), c) then Ok(rule) else Rejected
    {
      hide Put, EventID, ValidRule;
      if cancelled || !ValidRule(lib.net, rule) || rule.tenantID !in tenants { return Rejected; }
      if rule.tenantID !in policies { policies := policies[rule.tenantID := map[]]; }
      policies := policies[rule.tenantID := policies[rule.tenantID][rule.id := rule]];
      RowThenCell(old(policies), rule.tenantID, rule.id, rule);
      AuditLocked(rule.tenantID, "system", "policy.upsert", "policy_rule", rule.id, audited);
      return Ok(rule);
    }

    method UpsertConfig(bundle: Bundle, cancelled: bool, stamp: Time, audited: Time) returns (r: Outcome<Bundle>)
      modifies this
      ensures var c := Call(Command.UpsertConfig(bundle), cancelled, stamp, audited);
              && Contents() == Step(lib, old(Contents()), c)
              && r == if Accepts(lib, old(Contents()), c) then Ok(configs[bundle.tenantID][bundle.id]) else Rejected
    {
      hide Put, EventID, ValidBundle;
      if cancelled || !ValidBundle(lib.net, bundle) || bundle.tenantID !in tenants { return Rejected; }
      if bundle.tenantID !in configs { configs := configs[bundle.tenantID := map[]]; }
      var created := bundle.(createdAt := stamp);
      configs := configs[created.tenantID := configs[created.tenantID][created.id := created]];
      RowThenCell(old(configs), created.tenantID, created.id, created);
      AuditLocked(created.tenantID, "system", "config.upsert", "config_bundle", created.id, audited);
      return Ok(created);
    }

    method RecordAuditEvent(event: AuditEvent, cancelled: bool, stamp: Time, audited: Time)
      returns (r: Outcome<AuditEvent>)
      modifies this
      ensures var c := Call(Command.RecordAuditEvent(event), cancelled, stamp, audited);
              && Contents() == Step(lib, old(Contents()), c)
              && r ==
                   if Accepts(lib, old(Contents()), c) then Ok(Completed(old(Contents()), event, stamp)) else Rejected
    {
      hide EventID, ValidEvent;
      if cancelled { return Rejected; }
      var log := if event.tenantID in audit then audit[event.tenantID] else [];
      var e := event;
      if e.id == "" && e.tenantID != "" { e := e.(id := EventID(e.tenantID, |log| + 1)); }
      if e.createdAt == 0 { e := e.(createdAt := stamp); }
      if !ValidEvent(lib.net, e) { return Rejected; }
      audit := audit[e.tenantID := log + [e]];
      return Ok(e);
    }

    /** The tenant's rules, best first. */
    method PolicyRules(tenantID: string, cancelled: bool) returns (r: Outcome<seq<Rule>>)
      requires Sound(lib, Contents())
      ensures r.Ok? <==> !cancelled && tenantID in tenants
      ensures r.Ok? ==> Lists(r.value, Row(policies, tenantID), RuleID) && Sorted(r.value, Before)
    {
      hide Before, Lists, Sorted;
      if cancelled || tenantID !in tenants { return Rejected; }
      RowIsKeyed(policies, tenants, RuleFits(lib.net), tenantID, RuleID);
      var rules := RangeValues(Row(policies, tenantID), RuleID);
      BeforeIsAnOrder();
      StableSortSorts(rules, Before);
      ListsAfterSort(rules, Row(policies, tenantID), RuleID, Before);
      return Ok(StableSort(rules, Before));
    }

    /** Stored rules are valid, so the engine is always built: the answer is the tenant's best stored rule. */
    method EvaluatePolicy(q: Request, cancelled: bool) returns (d: Outcome<Decision>)
      requires Sound(lib, Contents())
      ensures d.Ok? <==> !cancelled && q.tenantID in tenants
      ensures forall r :: d.Ok? && BestOf(lib.net, Row(policies, q.tenantID), q, r) ==>
                d.value == DecisionOf(Some(r), q)
      ensures d.Ok?
              && (forall r: Rule :: r.id in Row(policies, q.tenantID) && Row(policies, q.tenantID)[r.id] == r ==>
                   !Applies(lib.net, q)(r))
              ==> d.value == NO_DECISION
    {
      hide Before, Applies, Sorted, ValidRule;
      var rules := PolicyRules(q.tenantID, cancelled);
      if rules.Rejected? { return Rejected; }
      ListedRulesAreValid(lib, Contents(), q.tenantID, rules.value);
      var engine := NewEngine(lib.net, rules.value);
      if engine.Rejected? { return Rejected; }
      var decision := Evaluate(lib.net, engine.value, q);
      EngineIsArgmax(lib.net, rules.value, q);
      ListedDecision(lib.net, Row(policies, q.tenantID), rules.value, q);
      return Ok(decision);
    }

    /** The tenant's configs by id. */
    method Configs(tenantID: string, cancelled: bool) returns (r: Outcome<seq<Bundle>>)
      requires Sound(lib, Contents())
      ensures r.Ok? <==> !cancelled && tenantID in tenants
      ensures r.Ok? ==> Lists(r.value, Row(configs, tenantID), BundleID) && Sorted(r.value, BundleBefore)
    {
      hide BundleBefore, Lists, Sorted;
      if cancelled || tenantID !in tenants { return Rejected; }
      RowIsKeyed(configs, tenants, BundleFits(lib.net), tenantID, BundleID);
      var bundles := RangeValues(Row(configs, tenantID), BundleID);
      BundleOrder();
      StableSortSorts(bundles, BundleBefore);
      ListsAfterSort(bundles, Row(configs, tenantID), BundleID, BundleBefore);
      return Ok(StableSort(bundles, BundleBefore));
    }
  }

  function BundleID(b: Bundle): string { b.id }
  predicate BundleBefore(a: Bundle, b: Bundle) { StrLess(a.id, b.id) }

  lemma BundleOrder()
    ensures StrictWeakOrder(BundleBefore)
  {
    hide StrLess;
    StrOrder();
  }

  lemma RowIsKeyed<V>(m: Nested<V>, tenants: map<string, Tenant>, fits: (string, string, V) -> bool, tenantID: string,
                      key: V -> string)
    requires Filed(m, tenants, fits)
    requires forall t, id, v :: fits(t, id, v) ==> key(v) == id
    ensures KeyedBy(Row(m, tenantID), key)
  {
    forall id | id in Row(m, tenantID) ensures key(Row(m, tenantID)[id]) == id {
      FiledCell(m, tenants, fits, tenantID, id);
    }
  }

  lemma ListedRulesAreValid(lib: Lib, s: State, tenantID: string, rules: seq<Rule>)
    requires Sound(lib, s) && Lists(rules, Row(s.policies, tenantID), RuleID)
    ensures forall i :: 0 <= i < |rules| ==> ValidRule(lib.net, rules[i])
  {
    hide ValidRule;
    forall i | 0 <= i < |rules| ensures ValidRule(lib.net, rules[i]) {
      assert rules[i] in rules;
      FiledCell(s.policies, s.tenants, RuleFits(lib.net), tenantID, rules[i].id);
    }
  }
}
