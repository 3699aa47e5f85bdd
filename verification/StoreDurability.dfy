/** The write-through repository: snapshots, save failures, restarts, and what survives them. */
module StoreDurability {
  import opened Text
  import opened Store

  // ---- snapshots ----

  method CopyMap<V>(from: map<string, V>) returns (copy: map<string, V>)
    ensures copy == from
  {
    copy := map[];
    var left := from.Keys;
    while left != {}
      invariant left <= from.Keys
      invariant copy.Keys == from.Keys - left
      invariant forall k :: k in copy ==> copy[k] == from[k]
    {
      var k :| k in left;
      copy := copy[k := from[k]];
      left := left - {k};
    }
  }

  method CopyNested<V>(from: Nested<V>) returns (copy: Nested<V>)
    ensures copy == from
  {
    copy := map[];
    var left := from.Keys;
    while left != {}
      invariant left <= from.Keys
      invariant copy.Keys == from.Keys - left
      invariant forall k :: k in copy ==> copy[k] == from[k]
    {
      var k :| k in left;
      var row := CopyMap(from[k]);
      copy := copy[k := row];
      left := left - {k};
    }
  }

  method Copy(s: State) returns (copy: State)
    ensures copy == s
  {
    var tenants := CopyMap(s.tenants);
    var devices := CopyNested(s.devices);
    var nodes := CopyNested(s.nodes);
    var policies := CopyNested(s.policies);
    var configs := CopyNested(s.configs);
    var telemetry := CopyMap(s.telemetry);
    var audit := CopyMap(s.audit);
    copy := State(tenants, devices, nodes, policies, configs, telemetry, audit);
  }

  method Snapshot(m: Memory) returns (s: State)
    ensures s == m.Contents()
  {
    s := Copy(State(m.tenants, m.devices, m.nodes, m.policies, m.configs, m.telemetry, m.audit));
  }

  method NewMemoryFromSnapshot(lib: Lib, s: State) returns (m: Memory)
    ensures fresh(m) && m.lib == lib && m.Contents() == s
  {
    m := new Memory(lib);
    var copy := Copy(s);
    m.tenants, m.devices, m.nodes, m.policies := copy.tenants, copy.devices, copy.nodes, copy.policies;
    m.configs, m.telemetry, m.audit := copy.configs, copy.telemetry, copy.audit;
  }

  // ---- the repository with its file ----

  datatype World = World(memory: State, file: Option<Bytes>)

  /** What happens to the repository: a call whose save may fail, or a restart of the process. */
  datatype Happening = Do(call: Call, writable: bool) | Restart

  /** JSON gives back what it was given, where it can encode it at all. */
  ghost predicate Lossless(lib: Lib) { forall s :: lib.encode(s).Some? ==> lib.decode(lib.encode(s).value) == Some(s) }

  /** What opening the file yields; None when it cannot be decoded. */
  function Reload(lib: Lib, file: Option<Bytes>): Option<State> {
    if file.Some? then lib.decode(file.value) else Some(EMPTY)
  }

  /** A restart over a file that cannot be decoded does not come up. */
  function Next(lib: Lib, w: World, h: Happening): World {
    match h
    case Restart => (match Reload(lib, w.file) case None => w case Some(s) => World(s, w.file))
    case Do(call, writable) =>
      if !Accepts(lib, w.memory, call) then w
      else
        var after := Step(lib, w.memory, call);
        World(after, if writable && lib.encode(after).Some? then lib.encode(after) else w.file)
  }

  /** `NewFileRepository`, both the first start and every restart over the file left behind. */
  method NewFileRepository(lib: Lib, file: Option<Bytes>) returns (r: Outcome<FileRepository>)
    ensures r.Ok? <==> Reload(lib, file).Some?
    ensures r.Ok? ==> fresh(r.value) && fresh(r.value.memory) && r.value.lib == lib && r.value.Valid()
    ensures r.Ok? ==> forall before: World :: before.file == file ==> r.value.Contents() == Next(lib, before, Restart)
  {
    var memory := new Memory(lib);
    if file.Some? {
      var loaded := lib.decode(file.value);
      if loaded.None? { return Rejected; }
      memory := NewMemoryFromSnapshot(lib, loaded.value);
    }
    var repository := new FileRepository(memory, file);
    return Ok(repository);
  }

  class FileRepository {
    const lib: Lib
    const memory: Memory
    var file: Option<Bytes>

    ghost predicate Valid()
      reads this
    {
      memory.lib == lib
    }

    ghost function Contents(): World
      reads this, memory
    {
      World(memory.Contents(), file)
    }

    constructor (memory: Memory, file: Option<Bytes>)
      ensures Valid() && this.memory == memory && lib == memory.lib && this.file == file
    {
      this.lib, this.memory, this.file := memory.lib, memory, file;
    }

    method Save(writable: bool) returns (ok: bool)
      requires Valid()
      modifies this`file
      ensures ok == (writable && lib.encode(memory.Contents()).Some?)
      ensures file == if ok then lib.encode(memory.Contents()) else old(file)
    {
      if !writable { return false; }
      var s := Snapshot(memory);
      var encoded := lib.encode(s);
      if encoded.None? { return false; }
      file := encoded;
      return true;
    }

    /** Every mutator: the memory first, then the file. A failed save is reported, but memory keeps the change. */
    method Write(call: Call, writable: bool) returns (ok: bool)
      requires Valid()
      modifies this`file, memory
      ensures Valid() && Contents() == Next(lib, old(Contents()), Do(call, writable))
      ensures ok == Saves(lib, old(Contents()), Do(call, writable))
    {
      hide Accepts, Stored, EventOf;
      var taken := Dispatch(call);
      if !taken { return false; }
      ok := Save(writable);
    }

    method Dispatch(call: Call) returns (taken: bool)
      requires Valid()
      modifies memory
      ensures Valid() && memory.Contents() == Step(lib, old(memory.Contents()), call)
      ensures taken == Accepts(lib, old(memory.Contents()), call)
    {
      hide Step, Accepts;
      var Call(command, cancelled, stamp, audited) := call;
      match command {
        case CreateTenant(x) => var r := memory.CreateTenant(x, cancelled, stamp, audited); taken := r.Ok?;
        case RegisterDevice(x) => var r := memory.RegisterDevice(x, cancelled, stamp, audited); taken := r.Ok?;
        case RegisterNode(x) => var r := memory.RegisterNode(x, cancelled, stamp, audited); taken := r.Ok?;
        case RecordNodeHeartbeat(x) => var r := memory.RecordNodeHeartbeat(x, cancelled, stamp, audited);
                                       taken := r.Ok?;
        case RetireNode(t, n) => var r := memory.RetireNode(t, n, cancelled, stamp, audited); taken := r.Ok?;
        case RecordTelemetry(x) => var r := memory.RecordTelemetry(x, cancelled, stamp, audited); taken := r.Ok?;
        case UpsertPolicyRule(x) => var r := memory.UpsertPolicyRule(x, cancelled, stamp, audited); taken := r.Ok?;
        case UpsertConfig(x) => var r := memory.UpsertConfig(x, cancelled, stamp, audited); taken := r.Ok?;
        case RecordAuditEvent(x) => var r := memory.RecordAuditEvent(x, cancelled, stamp, audited); taken := r.Ok?;
      }
    }
  }

  // ---- whole runs ----

  /** A run of a repository that came up over the file `start`. */
  function Run(lib: Lib, start: Option<Bytes>, hs: seq<Happening>): World
    requires Reload(lib, start).Some?
    decreases |hs|
  {
    if hs == [] then World(Reload(lib, start).value, start)
    else Next(lib, Run(lib, start, hs[..|hs| - 1]), hs[|hs| - 1])
  }

  /** The happening is an accepted call whose snapshot is encoded and written. */
  predicate Saves(lib: Lib, w: World, h: Happening) {
    h.Do? && h.writable && Accepts(lib, w.memory, h.call) && lib.encode(Step(lib, w.memory, h.call)).Some?
  }

  /** Reloading, now or at a restart, yields the memory right after the last successful save. */
  lemma {:induction false} ReloadIsLastSave(lib: Lib, start: Option<Bytes>, hs: seq<Happening>) returns (k: nat)
    requires Lossless(lib) && Reload(lib, start).Some?
    ensures k <= |hs| && (k > 0 ==> Saves(lib, Run(lib, start, hs[..k - 1]), hs[k - 1]))
    ensures forall j :: k <= j < |hs| ==> !Saves(lib, Run(lib, start, hs[..j]), hs[j])
    ensures Reload(lib, Run(lib, start, hs).file) == Some(Run(lib, start, hs[..k]).memory)
    ensures Run(lib, start, hs + [Restart]).memory == Run(lib, start, hs[..k]).memory
  {
    hide Accepts, Step;
    assert (hs + [Restart])[..|hs|] == hs;
    if hs == [] {
      k := 0;
    } else {
      var before := hs[..|hs| - 1];
      if Saves(lib, Run(lib, start, before), hs[|hs| - 1]) {
        k := |hs|;
        assert hs[..k] == hs;
      } else {
        k := ReloadIsLastSave(lib, start, before);
        assert before[..k] == hs[..k] && (k > 0 ==> before[..k - 1] == hs[..k - 1]);
        forall j | k <= j < |hs| ensures !Saves(lib, Run(lib, start, hs[..j]), hs[j]) {
          if j < |before| { assert before[..j] == hs[..j]; }
        }
      }
    }
  }

  /** The file of a run can always be decoded: what is on it. */
  function OnFile(lib: Lib, start: Option<Bytes>, hs: seq<Happening>): State
    requires Reload(lib, start).Some?
  {
    var loaded := Reload(lib, Run(lib, start, hs).file);
    if loaded.Some? then loaded.value else EMPTY
  }

  /** One happening, seen on file: a save puts the memory there, anything else leaves it. */
  lemma FileSteps(lib: Lib, start: Option<Bytes>, hs: seq<Happening>)
    requires Lossless(lib) && Reload(lib, start).Some? && hs != []
    ensures var before, h := hs[..|hs| - 1], hs[|hs| - 1];
            && OnFile(lib, start, hs) ==
               (if Saves(lib, Run(lib, start, before), h) then Run(lib, start, hs).memory
               else OnFile(lib, start, before))
            && (h == Restart ==> Run(lib, start, hs).memory == OnFile(lib, start, before))
  {
    hide Accepts, Step;
    var k := ReloadIsLastSave(lib, start, hs[..|hs| - 1]);
  }

  lemma EmptyIsSound(lib: Lib)
    ensures Sound(lib, EMPTY)
  {
  }

  /** Memory and file stay sound through every call, save failure and restart. */
  lemma {:induction false} RunIsSound(lib: Lib, start: Option<Bytes>, hs: seq<Happening>)
    requires Lossless(lib) && Reload(lib, start).Some? && Sound(lib, Reload(lib, start).value)
    ensures Sound(lib, Run(lib, start, hs).memory) && Sound(lib, OnFile(lib, start, hs))
    decreases |hs|
  {
    hide Sound, Accepts, Step, Lossless;
    if hs != [] {
      RunIsSound(lib, start, hs[..|hs| - 1]);
      FileSteps(lib, start, hs);
      var h, w := hs[|hs| - 1], Run(lib, start, hs[..|hs| - 1]);
      if h.Do? { StepKeepsSound(lib, w.memory, h.call); }
    }
  }

  // ---- audit logs ----

  ghost predicate Grows(before: State, after: State) {
    forall t :: LogOf(before.audit, t) <= LogOf(after.audit, t)
  }

  lemma StepGrows(lib: Lib, s: State, c: Call)
    ensures Grows(s, Step(lib, s, c))
  {
    hide Accepts, Stored, EventOf;
  }

  /** What is on file is a prefix of what is in memory. */
  lemma {:induction false} FileBehindMemory(lib: Lib, start: Option<Bytes>, hs: seq<Happening>)
    requires Lossless(lib) && Reload(lib, start).Some?
    ensures Grows(OnFile(lib, start, hs), Run(lib, start, hs).memory)
    decreases |hs|
  {
    hide Accepts, Step, Lossless, OnFile;
    if hs == [] {
      NothingYet(lib, start);
    } else {
      FileBehindMemory(lib, start, hs[..|hs| - 1]);
      FileSteps(lib, start, hs);
      var h, w := hs[|hs| - 1], Run(lib, start, hs[..|hs| - 1]);
      if h.Do? { StepGrows(lib, w.memory, h.call); }
    }
  }

  lemma NothingYet(lib: Lib, start: Option<Bytes>)
    requires Reload(lib, start).Some?
    ensures OnFile(lib, start, []) == Run(lib, start, []).memory == Reload(lib, start).value
  {
  }

  /** Each tenant's audit log only grows: on file over every run, in memory between restarts. */
  lemma {:induction false} AuditOnlyGrows(lib: Lib, start: Option<Bytes>, hs: seq<Happening>, k: nat)
    requires Lossless(lib) && Reload(lib, start).Some? && k <= |hs|
    ensures Grows(OnFile(lib, start, hs[..k]), OnFile(lib, start, hs))
    ensures Restart !in hs[k..] ==> Grows(Run(lib, start, hs[..k]).memory, Run(lib, start, hs).memory)
    decreases |hs|
  {
    hide Accepts, Step, Lossless, OnFile, Grows;
    if k == |hs| {
      assert hs[..k] == hs;
      GrowsFrom(OnFile(lib, start, hs));
      GrowsFrom(Run(lib, start, hs).memory);
    } else {
      var before, h := hs[..|hs| - 1], hs[|hs| - 1];
      assert before[..k] == hs[..k] && hs[k..] == before[k..] + [h];
      AuditOnlyGrows(lib, start, before, k);
      FileBehindMemory(lib, start, before);
      FileSteps(lib, start, hs);
      var w := Run(lib, start, before);
      if h.Do? {
        StepGrows(lib, w.memory, h.call);
        GrowsOn(OnFile(lib, start, before), w.memory, Run(lib, start, hs).memory);
        GrowsOn(OnFile(lib, start, hs[..k]), OnFile(lib, start, before), OnFile(lib, start, hs));
        if Restart !in before[k..] { GrowsOn(Run(lib, start, hs[..k]).memory, w.memory, Run(lib, start, hs).memory); }
      }
    }
  }

  lemma GrowsFrom(s: State)
    ensures Grows(s, s)
  {
  }

  lemma GrowsOn(a: State, b: State, c: State)
    requires Grows(b, c)
    ensures Grows(a, b) ==> Grows(a, c)
  {
  }

  // ---- metrics JSON cannot carry ----

  predicate Encodable(r: Report) { forall name :: name in r.metrics ==> IsFinite(r.metrics[name]) }

  /** A report with an infinite or NaN metric is in the repository. */
  ghost predicate Poisoned(s: State) {
    exists t, i :: t in s.telemetry && 0 <= i < |s.telemetry[t]| && !Encodable(s.telemetry[t][i])
  }

  /** JSON has no text for infinities and NaNs. */
  ghost predicate RefusesNonFinite(lib: Lib) { forall s :: Poisoned(s) ==> lib.encode(s).None? }

  lemma StepStaysPoisoned(lib: Lib, s: State, c: Call)
    requires Poisoned(s)
    ensures Poisoned(Step(lib, s, c))
  {
    var t, i :| t in s.telemetry && 0 <= i < |s.telemetry[t]| && !Encodable(s.telemetry[t][i]);
    var after := Step(lib, s, c);
    assert t in after.telemetry && LogOf(s.telemetry, t) <= LogOf(after.telemetry, t) by {
      hide EventOf, Accepts, Put, Registered, Beaten, Sanitized, ValidReport;
      if Accepts(lib, s, c) { StoredTelemetry(lib, s, c); }
    }
    assert after.telemetry[t][i] == s.telemetry[t][i];
  }

  lemma StoredTelemetry(lib: Lib, s: State, c: Call)
    requires Accepts(lib, s, c)
    ensures forall t :: LogOf(s.telemetry, t) <= LogOf(Stored(lib, s, c).telemetry, t)
    ensures forall t :: t in s.telemetry ==> t in Stored(lib, s, c).telemetry
  {
    hide Accepts, Put, Registered, Beaten, Sanitized;
    if !c.command.RecordTelemetry? { hide Stored; }
  }

  /** `Report.Validate` lets infinities and NaNs through, since they are not below zero. Once such a report
      is taken, nothing is saved any more until the process restarts. */
  lemma {:induction false} NonFiniteMetricStopsSaves(lib: Lib, start: Option<Bytes>, hs: seq<Happening>, k: nat)
    requires Lossless(lib) && RefusesNonFinite(lib) && Reload(lib, start).Some? && k <= |hs|
    requires Poisoned(Run(lib, start, hs[..k]).memory) && Restart !in hs[k..]
    ensures Poisoned(Run(lib, start, hs).memory) && OnFile(lib, start, hs) == OnFile(lib, start, hs[..k])
    decreases |hs|
  {
    hide Accepts, Step, Lossless, OnFile, Poisoned;
    if k == |hs| {
      assert hs[..k] == hs;
    } else {
      var before, h := hs[..|hs| - 1], hs[|hs| - 1];
      assert before[..k] == hs[..k] && hs[k..] == before[k..] + [h];
      NonFiniteMetricStopsSaves(lib, start, before, k);
      FileSteps(lib, start, hs);
      StepStaysPoisoned(lib, Run(lib, start, before).memory, h.call);
    }
  }

  /** Such a report is taken: any valid report of a known tenant with one metric made infinite. */
  lemma NonFiniteMetricIsTaken(lib: Lib, s: State, r: Report, name: string, now: Time)
    requires ValidReport(lib.net, r) && r.tenantID in s.tenants && name in r.metrics
    ensures var infinite := r.(metrics := r.metrics[name := 0x7FF0_0000_0000_0000]);
            var c := Call(RecordTelemetry(infinite), false, now, now);
            Accepts(lib, s, c) && Poisoned(Step(lib, s, c))
  {
    var infinite := r.(metrics := r.metrics[name := 0x7FF0_0000_0000_0000]);
    var c := Call(RecordTelemetry(infinite), false, now, now);
    assert ValidReport(lib.net, infinite);
    var clean, t := Sanitized(lib, infinite, now), r.tenantID;
    hide Redacted, EventID, ValidReport;
    var after := Step(lib, s, c);
    assert after.telemetry == Append(s.telemetry, t, clean);
    var i := |LogOf(s.telemetry, t)|;
    assert after.telemetry[t][i] == clean && !IsFinite(clean.metrics[name]);
    assert !Encodable(after.telemetry[t][i]);
  }

  // ---- event ids ----

  /** The last dash of an id stands before its digits. */
  lemma DashIsLast(t: string, a: string, u: string, b: string)
    requires t + "-" + a == u + "-" + b && forall i :: 0 <= i < |b| ==> '0' <= b[i] <= '9'
    ensures |t| <= |u|
  {
    var id := t + "-" + a;
    assert id[|t|] == '-';
    assert forall k :: |u| < k < |id| ==> id[k] == b[k - |u| - 1];
  }

  /** The tenant and the place in its log can be read back from a generated id. */
  lemma EventIDInjective(t: string, i: nat, u: string, j: nat)
    requires EventID(t, i) == EventID(u, j)
    ensures t == u && i == j
  {
    hide Padded;
    var a, b, id := Padded(i, 6), Padded(j, 6), EventID(t, i);
    DashIsLast(t, a, u, b);
    DashIsLast(u, b, t, a);
    assert t == id[..|t|] && u == id[..|t|];
    assert a == id[|t| + 1..] && b == id[|t| + 1..];
    PaddedRoundTrip(i, 6);
    PaddedRoundTrip(j, 6);
  }

  /** The ids callers gave their own audit events. */
  ghost predicate Supplied(hs: seq<Happening>, id: string) {
    exists k ::
      0 <= k < |hs| && hs[k].Do? && hs[k].call.command.RecordAuditEvent? && hs[k].call.command.event.id == id
      && id != ""
  }

  ghost predicate Numbered(s: State, hs: seq<Happening>) {
    forall t, i :: t in s.audit && 0 <= i < |s.audit[t]| ==>
      s.audit[t][i].id == EventID(t, i + 1) || Supplied(hs, s.audit[t][i].id)
  }

  lemma StepNumbers(lib: Lib, s: State, hs: seq<Happening>, h: Happening)
    requires h.Do? && Numbered(s, hs)
    ensures Numbered(Step(lib, s, h.call), hs + [h])
  {
    hide Supplied, EventID, Accepts, Stored, EventOf;
    SuppliedGrows(hs, h);
    if Accepts(lib, s, h.call) {
      var e, after := EventOf(s, h.call), Step(lib, s, h.call);
      assert e.id == EventID(e.tenantID, |LogOf(s.audit, e.tenantID)| + 1) || Supplied(hs + [h], e.id) by {
        EventIsNumbered(lib, s, hs, h);
      }
      forall t, i | t in after.audit && 0 <= i < |after.audit[t]|
        ensures after.audit[t][i].id == EventID(t, i + 1) || Supplied(hs + [h], after.audit[t][i].id)
      {
        assert t != e.tenantID || i < |LogOf(s.audit, t)| ==> t in s.audit && after.audit[t][i] == s.audit[t][i];
      }
    }
  }

  lemma EventIsNumbered(lib: Lib, s: State, hs: seq<Happening>, h: Happening)
    requires h.Do? && Accepts(lib, s, h.call)
    ensures var e := EventOf(s, h.call);
            e.id == EventID(e.tenantID, |LogOf(s.audit, e.tenantID)| + 1) || Supplied(hs + [h], e.id)
  {
    hide EventID;
    assert (hs + [h])[|hs|] == h;
  }

  lemma SuppliedGrows(hs: seq<Happening>, h: Happening)
    ensures forall id :: Supplied(hs, id) ==> Supplied(hs + [h], id)
  {
    forall id | Supplied(hs, id) ensures Supplied(hs + [h], id) {
      var k :| 0 <= k < |hs| && hs[k].Do? && hs[k].call.command.RecordAuditEvent?
      && hs[k].call.command.event.id == id && id != "";
      assert (hs + [h])[k] == hs[k];
    }
  }

  lemma {:induction false} RunIsNumbered(lib: Lib, hs: seq<Happening>)
    requires Lossless(lib)
    ensures Numbered(Run(lib, None, hs).memory, hs) && Numbered(OnFile(lib, None, hs), hs)
    decreases |hs|
  {
    hide Supplied, EventID, Step, Accepts, Lossless, OnFile;
    if hs == [] {
      NothingYet(lib, None);
    } else {
      FileSteps(lib, None, hs);
      var before, h := hs[..|hs| - 1], hs[|hs| - 1];
      RunIsNumbered(lib, before);
      SuppliedGrows(before, h);
      assert before + [h] == hs;
      if h.Do? { StepNumbers(lib, Run(lib, None, before).memory, before, h); }
    }
  }

  /** In every reachable repository two events, of any tenants, share an id only if a caller supplied it. */
  lemma GeneratedIdsAreDistinct(lib: Lib, hs: seq<Happening>, t: string, i: nat, u: string, j: nat)
    requires Lossless(lib)
    requires var audit := Run(lib, None, hs).memory.audit;
             t in audit && i < |audit[t]| && u in audit && j < |audit[u]| && audit[t][i].id == audit[u][j].id
    ensures (t == u && i == j) || Supplied(hs, Run(lib, None, hs).memory.audit[t][i].id)
  {
    hide Supplied, EventID, Run, Lossless;
    RunIsNumbered(lib, hs);
    var s := Run(lib, None, hs).memory;
    if !Supplied(hs, s.audit[t][i].id) {
      assert s.audit[t][i].id == EventID(t, i + 1) && s.audit[u][j].id == EventID(u, j + 1);
      EventIDInjective(t, i + 1, u, j + 1);
    }
  }

  /** `RecordAuditEvent` never looks at the tenants: it takes a well-formed event of a tenant that does not exist. */
  lemma UnknownTenantIsAudited(lib: Lib, e: AuditEvent, now: Time)
    requires ValidEvent(lib.net, e) && e.id != ""
    ensures var s := Step(lib, EMPTY, Call(RecordAuditEvent(e), false, now, now));
            e.tenantID !in s.tenants && |LogOf(s.audit, e.tenantID)| == 1
  {
  }

  ghost predicate AuditedTenantsExist(s: State) { forall t :: t in s.audit ==> t in s.tenants }

  /** So audit logs keep to existing tenants exactly as long as callers do. */
  lemma AuditedTenantsExistIff(lib: Lib, s: State, c: Call)
    requires AuditedTenantsExist(s) && Accepts(lib, s, c)
    ensures AuditedTenantsExist(Step(lib, s, c)) <==>
              (c.command.RecordAuditEvent? ==> c.command.event.tenantID in s.tenants)
  {
    hide Accepts, Stored, EventOf;
    EventTenantExistsIff(lib, s, c);
    assert EventOf(s, c).tenantID in Step(lib, s, c).audit;
  }

  lemma EventTenantExistsIff(lib: Lib, s: State, c: Call)
    requires Accepts(lib, s, c)
    ensures forall t :: t in s.tenants ==> t in Stored(lib, s, c).tenants
    ensures EventOf(s, c).tenantID in Stored(lib, s, c).tenants <==>
              (c.command.RecordAuditEvent? ==> c.command.event.tenantID in s.tenants)
  {
    hide Accepts, Stored, EventOf;
    EventTenant(lib, s, c);
  }

  lemma EventTenant(lib: Lib, s: State, c: Call)
    requires Accepts(lib, s, c)
    ensures match c.command
            case CreateTenant(t) => EventOf(s, c).tenantID == t.id
            case RecordAuditEvent(e) => EventOf(s, c).tenantID == e.tenantID
            case _ => EventOf(s, c).tenantID in s.tenants
  {
    hide EventID, ValidTenant, ValidDevice, ValidNode, ValidBeat, ValidReport, ValidBundle, ValidEvent;
  }

  /** A caller can take the id the next generated event will get. */
  lemma SuppliedIdCollides(lib: Lib, e: AuditEvent, tenant: Tenant, now: Time)
    requires ValidTenant(lib.net, tenant) && ValidEvent(lib.net, e) && e.tenantID == tenant.id
             && e.id == EventID(tenant.id, 2)
    ensures var first := Step(lib, EMPTY, Call(RecordAuditEvent(e), false, now, now));
            var log := LogOf(Step(lib, first, Call(CreateTenant(tenant), false, now, now)).audit, tenant.id);
            |log| == 2 && log[0].id == log[1].id
  {
    hide Padded;
    var first := Step(lib, EMPTY, Call(RecordAuditEvent(e), false, now, now));
    assert |e.id| > 0;
    assert |LogOf(first.audit, tenant.id)| == 1 && tenant.id !in first.tenants;
  }
}
