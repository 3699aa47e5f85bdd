/** The transport switch: a supervisor that starts and stops transports, a runtime that limits how
    often it may switch, and the agent service driving both. Every outside call may fail. */
module Transport {
  import opened Text

  datatype Protocol = WireGuard | Hysteria2 | Reality | Tuic | Unlisted(name: string)
  datatype Mode = CommandMode | ProcessMode
  /** `hasStop`: the lifecycle spec names a stop command. */
  datatype Spec = Spec(mode: Mode, hasStop: bool)

  /** How the outside world answers the calls one operation makes. */
  datatype Weather = Weather(
    processStopOk: bool, stopCommandOk: bool,
    survives: bool, // whether the transport still runs after a failed stop
    startOk: bool, restoreOk: bool)

  /** The supervisor's fields and the transports really running. */
  datatype Sup = Sup(active: Option<Protocol>, process: bool, running: set<Protocol>)

  type Specs = map<Protocol, Spec>

  const IDLE := Sup(None, false, {})

  function HasStop(specs: Specs, p: Protocol): bool { p in specs && specs[p].hasStop }

  /** `ProtocolLifecycleSpec.Validate`: a transport run by commands has a stop command. */
  predicate ValidSpecs(specs: Specs) { forall p :: p in specs && specs[p].mode == CommandMode ==> specs[p].hasStop }

  predicate StopSucceeds(specs: Specs, s: Sup, w: Weather)
    requires s.active.Some?
  {
    (s.process ==> w.processStopOk) && (HasStop(specs, s.active.value) ==> w.stopCommandOk)
  }

  /** Something was there to stop the transport: its process or a stop command. */
  predicate Stoppable(specs: Specs, s: Sup)
    requires s.active.Some?
  {
    s.process || HasStop(specs, s.active.value)
  }

  /** The transports running after the attempt: a failed one may or may not have taken the transport down. */
  function StillRunning(specs: Specs, s: Sup, w: Weather): set<Protocol>
    requires s.active.Some?
  {
    if Stoppable(specs, s) && (StopSucceeds(specs, s, w) || !w.survives) then s.running - {s.active.value}
       else s.running
  }

  /** `stopLocked`. */
  function AfterStop(specs: Specs, s: Sup, w: Weather): Sup
    requires s.active.Some?
  {
    if StopSucceeds(specs, s, w) then Sup(None, false, StillRunning(specs, s, w))
    else s.(running := StillRunning(specs, s, w))
  }

  function Started(specs: Specs, s: Sup, p: Protocol): Sup
    requires p in specs
  {
    Sup(Some(p), specs[p].mode == ProcessMode, s.running + {p})
  }

  predicate ActivateSucceeds(specs: Specs, s: Sup, p: Protocol, w: Weather) {
    s.active == Some(p) || (p in specs && (s.active.Some? ==> StopSucceeds(specs, s, w)) && w.startOk)
  }

  /** `Supervisor.Activate`: stop the previous transport, start the new one, restore on failure. */
  function AfterActivate(specs: Specs, s: Sup, p: Protocol, w: Weather): Sup {
    if s.active == Some(p) || p !in specs then s
    else
      var stopped := if s.active.Some? then AfterStop(specs, s, w) else s;
      if s.active.Some? && !StopSucceeds(specs, s, w) then stopped
      else if w.startOk then Started(specs, stopped, p)
      else if s.active.Some? && s.active.value in specs && w.restoreOk then Started(specs, stopped, s.active.value)
      else stopped
  }

  class Supervisor {
    const specs: Specs
    var active: Protocol
    var activeSet: bool
    var process: bool
    /** Not a field of the program: the transports running on the host. */
    var running: set<Protocol>

    ghost function State(): Sup
      reads this
    {
      Sup(if activeSet then Some(active) else None, process, running)
    }

    constructor (specs: Specs)
      ensures this.specs == specs && State() == IDLE
    {
      this.specs, active, activeSet, process, running := specs, Unlisted(""), false, false, {};
    }

    method StopLocked(w: Weather) returns (ok: bool)
      requires activeSet
      modifies this
      ensures ok <==> StopSucceeds(specs, old(State()), w)
      ensures State() == AfterStop(specs, old(State()), w)
    {
      var tried := false;
      ok := true;
      if process { tried, ok := true, w.processStopOk; }
      if active in specs && specs[active].hasStop {
        tried := true;
        if !w.stopCommandOk { ok := false; }
      }
      if tried && (ok || !w.survives) { running := running - {active}; }
      if !ok { return; }
      active, activeSet, process := Unlisted(""), false, false;
    }

    method StartLocked(p: Protocol, succeeds: bool) returns (ok: bool)
      requires p in specs
      modifies this
      ensures ok == succeeds
      ensures State() == if ok then Started(specs, old(State()), p) else old(State())
    {
      ok := succeeds;
      if ok {
        running := running + {p};
        active, activeSet, process := p, true, specs[p].mode == ProcessMode;
      }
    }

    method Activate(p: Protocol, w: Weather) returns (ok: bool)
      modifies this
      ensures ok <==> ActivateSucceeds(specs, old(State()), p, w)
      ensures State() == AfterActivate(specs, old(State()), p, w)
      ensures ok ==> activeSet && active == p
      ensures old(activeSet) && old(active) != p && p in specs && !StopSucceeds(specs, old(State()), w) ==>
                activeSet && active == old(active)
      ensures old(activeSet) && old(active) != p && p in specs && old(active) in specs
              && StopSucceeds(specs, old(State()), w) && !w.startOk ==>
                activeSet == w.restoreOk && (w.restoreOk ==> active == old(active) && active in running)
    {
      if activeSet && active == p { return true; }
      if p !in specs { return false; }
      var previous, hadPrevious := active, activeSet;
      if hadPrevious {
        var stopped := StopLocked(w);
        if !stopped { return false; }
      }
      ok := StartLocked(p, w.startOk);
      if !ok && hadPrevious && previous in specs {
        var _ := StartLocked(previous, w.restoreOk);
      }
    }

    method Stop(w: Weather) returns (ok: bool)
      modifies this
      ensures State() == if old(State()).active.Some? then AfterStop(specs, old(State()), w) else old(State())
      ensures ok <==> (old(State()).active.Some? ==> StopSucceeds(specs, old(State()), w))
    {
      if !activeSet { return true; }
      ok := StopLocked(w);
    }
  }

  // ---- the switch runtime ----

  /** Times are integers and 0 is Go's zero time. */
  datatype Rt = Rt(active: Protocol, lastSwitch: int)

  datatype Report = Report(previous: Protocol, selected: Protocol, applied: bool, suppressed: bool, rolledBack: bool)

  predicate CoolingDown(rt: Rt, cooldown: int, now: int) {
    rt.lastSwitch != 0 && cooldown > 0 && now - rt.lastSwitch < cooldown
  }

  /** Whether the runtime calls `apply` for this selection. */
  predicate Tries(rt: Rt, cooldown: int, selected: Protocol, now: int) {
    selected != rt.active && !CoolingDown(rt, cooldown, now)
  }

  function AfterEvaluate(rt: Rt, cooldown: int, selected: Protocol, now: int, applyOk: bool): Rt {
    if Tries(rt, cooldown, selected, now) && applyOk then Rt(selected, now) else rt
  }

  function ReportOf(rt: Rt, cooldown: int, selected: Protocol, now: int, applyOk: bool): Report {
    if selected == rt.active then Report(rt.active, selected, true, false, false)
    else if CoolingDown(rt, cooldown, now) then Report(rt.active, rt.active, false, true, false)
    else if !applyOk then Report(rt.active, rt.active, false, false, true)
    else Report(rt.active, selected, true, false, false)
  }

  class SwitchRuntime {
    var active: Protocol
    const cooldown: int
    var lastSwitch: int

    ghost function State(): Rt
      reads this
    {
      Rt(active, lastSwitch)
    }

    constructor (active: Protocol, cooldown: int)
      ensures this.cooldown == cooldown && State() == Rt(active, 0)
    {
      this.active, this.cooldown, lastSwitch := active, cooldown, 0;
    }

    /** `SwitchRuntime.Evaluate` with `Supervisor.Activate` as its apply function. */
    method Evaluate(now: int, selected: Protocol, sup: Supervisor, w: Weather, reporterOk: bool)
      returns (report: Report, ok: bool)
      modifies this, sup
      ensures var tries := Tries(old(State()), cooldown, selected, now);
              var applied := ActivateSucceeds(sup.specs, old(sup.State()), selected, w);
              && State() == AfterEvaluate(old(State()), cooldown, selected, now, applied)
              && sup.State() ==
                   (if tries then AfterActivate(sup.specs, old(sup.State()), selected, w) else old(sup.State()))
              && report == ReportOf(old(State()), cooldown, selected, now, applied)
              && ok == reporterOk
    {
      report := Report(active, selected, false, false, false);
      ok := reporterOk;
      if selected == active { return report.(applied := true), ok; }
      if lastSwitch != 0 && cooldown > 0 && now - lastSwitch < cooldown {
        return report.(selected := active, suppressed := true), ok;
      }
      var applied := sup.Activate(selected, w);
      if !applied { return report.(selected := active, rolledBack := true), ok; }
      active, lastSwitch := selected, now;
      report := report.(applied := true);
    }
  }

  // ---- the agent service ----

  /** Supervisor, runtime and the protocol the agent's snapshot shows. */
  datatype Agent = Agent(sup: Sup, rt: Rt, shown: Protocol)

  datatype Op =
    | Start(w: Weather)
    | Stop(w: Weather)
    | EvaluateAndApply(valid: bool, selected: Protocol, now: int, w: Weather, reporterOk: bool)
    | ApplyConfig(protocol: Option<Protocol>)

  function AgentStep(specs: Specs, cooldown: int, a: Agent, op: Op): Agent {
    match op
    case Start(w) => a.(sup := AfterActivate(specs, a.sup, a.rt.active, w))
    case Stop(w) => a.(sup := if a.sup.active.Some? then AfterStop(specs, a.sup, w) else a.sup)
    case ApplyConfig(p) => a.(shown := if p.Some? then p.value else a.shown)
    case EvaluateAndApply(valid, selected, now, w, reporterOk) =>
      if !valid then a
      else
        var applied := ActivateSucceeds(specs, a.sup, selected, w);
        var report := ReportOf(a.rt, cooldown, selected, now, applied);
        Agent(if Tries(a.rt, cooldown, selected, now) then AfterActivate(specs, a.sup, selected, w) else a.sup,
              AfterEvaluate(a.rt, cooldown, selected, now, applied),
              if reporterOk then report.selected else a.shown)
  }

  class Service {
    const runtime: SwitchRuntime
    const supervisor: Supervisor
    var shown: Protocol

    ghost function State(): Agent
      reads this, runtime, supervisor
    {
      Agent(supervisor.State(), runtime.State(), shown)
    }

    constructor (runtime: SwitchRuntime, supervisor: Supervisor)
      ensures this.runtime == runtime && this.supervisor == supervisor
      ensures State() == Agent(supervisor.State(), runtime.State(), runtime.active)
    {
      this.runtime, this.supervisor, shown := runtime, supervisor, runtime.active;
    }

    /** The activation part of `Start`, as one step. */
    method Start(w: Weather) returns (ok: bool)
      modifies supervisor
      ensures State() == AgentStep(supervisor.specs, runtime.cooldown, old(State()), Op.Start(w))
      ensures ok <==> ActivateSucceeds(supervisor.specs, old(supervisor.State()), runtime.active, w)
    {
      ok := supervisor.Activate(runtime.active, w);
    }

    method EvaluateAndApply(valid: bool, selected: Protocol, now: int, w: Weather, reporterOk: bool) returns (ok: bool)
      modifies this, runtime, supervisor
      ensures State() ==
                AgentStep(supervisor.specs, runtime.cooldown, old(State()),
                          Op.EvaluateAndApply(valid, selected, now, w, reporterOk))
      ensures ok <==> valid && reporterOk
      ensures ok ==> shown == runtime.active
    {
      if !valid { return false; }
      var report;
      report, ok := runtime.Evaluate(now, selected, supervisor, w, reporterOk);
      if ok { shown := report.selected; }
    }

    method ApplyConfig(protocol: Option<Protocol>)
      modifies this
      ensures State() == AgentStep(supervisor.specs, runtime.cooldown, old(State()), Op.ApplyConfig(protocol))
    {
      if protocol.Some? { shown := protocol.value; }
    }
  }

  // ---- every reachable state ----

  /** At most the active transport runs, and an active transport is the runtime's. */
  ghost predicate Sound(specs: Specs, a: Agent) {
    match a.sup.active
    case None => a.sup.running == {} && !a.sup.process
    case Some(p) => a.sup.running <= {p} && p in specs && p == a.rt.active && Stoppable(specs, a.sup)
  }

  lemma StepKeepsSound(specs: Specs, cooldown: int, a: Agent, op: Op)
    requires ValidSpecs(specs) && Sound(specs, a)
    ensures Sound(specs, AgentStep(specs, cooldown, a, op))
  {
  }

  function AgentRun(specs: Specs, cooldown: int, a: Agent, ops: seq<Op>): Agent
    decreases |ops|
  {
    if ops == [] then a else AgentStep(specs, cooldown, AgentRun(specs, cooldown, a, ops[..|ops| - 1]), ops[|ops| - 1])
  }

  /** At most one transport runs, over every sequence of operations and failures. */
  lemma {:induction false} AtMostOneTransport(specs: Specs, cooldown: int, first: Protocol, ops: seq<Op>)
    requires ValidSpecs(specs)
    ensures var a := AgentRun(specs, cooldown, Agent(IDLE, Rt(first, 0), first), ops);
            && |a.sup.running| <= 1
            && (a.sup.active.None? ==> a.sup.running == {})
            && (a.sup.active.Some? ==> a.sup.running <= {a.sup.active.value} && a.sup.active.value == a.rt.active)
  {
    RunIsSound(specs, cooldown, first, ops);
    var a := AgentRun(specs, cooldown, Agent(IDLE, Rt(first, 0), first), ops);
    if a.sup.active.Some? {
      var p := a.sup.active.value;
      assert a.sup.running == {} || a.sup.running == {p};
    }
  }

  lemma {:induction false} RunIsSound(specs: Specs, cooldown: int, first: Protocol, ops: seq<Op>)
    requires ValidSpecs(specs)
    ensures Sound(specs, AgentRun(specs, cooldown, Agent(IDLE, Rt(first, 0), first), ops))
  {
    hide Sound, AgentStep;
    var start := Agent(IDLE, Rt(first, 0), first);
    if ops == [] {
      StartIsSound(specs, first);
    } else {
      RunIsSound(specs, cooldown, first, ops[..|ops| - 1]);
      StepKeepsSound(specs, cooldown, AgentRun(specs, cooldown, start, ops[..|ops| - 1]), ops[|ops| - 1]);
    }
  }

  /** Without `Validate`'s rule a transport could be forgotten while it runs. */
  lemma StopCommandIsNeeded(p: Protocol, q: Protocol, w: Weather)
    requires p != q && w.startOk && w.processStopOk && w.stopCommandOk
    ensures var specs := map[p := Spec(CommandMode, false), q := Spec(ProcessMode, false)];
            AfterActivate(specs, AfterActivate(specs, IDLE, p, w), q, w).running == {p, q}
  {
  }

  lemma StartIsSound(specs: Specs, first: Protocol)
    ensures Sound(specs, Agent(IDLE, Rt(first, 0), first))
  {
  }

  // ---- what a switch achieves ----

  /** In every reachable state with `p` active, asking the supervisor for another known transport `q`: a
      failed stop keeps `p` active; else a successful start brings up `q`; else `p` is back and running
      exactly when its restore succeeds, and otherwise nothing is active or running. */
  lemma ActivationOutcome(specs: Specs, cooldown: int, first: Protocol, ops: seq<Op>, p: Protocol, q: Protocol,
                          w: Weather)
    requires ValidSpecs(specs) && q in specs && p != q
    requires AgentRun(specs, cooldown, Agent(IDLE, Rt(first, 0), first), ops).sup.active == Some(p)
    ensures var s := AgentRun(specs, cooldown, Agent(IDLE, Rt(first, 0), first), ops).sup;
            var after := AfterActivate(specs, s, q, w);
            var stops := (s.process ==> w.processStopOk) && (p in specs && specs[p].hasStop ==> w.stopCommandOk);
            && p in specs
            && (!stops ==> after.active == Some(p) && (w.survives ==> after == s))
            && (stops && w.startOk ==>
                 after.active == Some(q) && after.running == {q} && after.process == specs[q].mode.ProcessMode?)
            && (stops && !w.startOk ==> (after.active == Some(p) && after.running == {p} <==> w.restoreOk))
            && (stops && !w.startOk && !w.restoreOk ==> after == Sup(None, false, {}))
            && (ActivateSucceeds(specs, s, q, w) <==> stops && w.startOk)
  {
    RunIsSound(specs, cooldown, first, ops);
  }

  /** The same seen from the agent: a switch whose start fails leaves the old transport shown by the runtime,
      and up exactly when its restore succeeds. */
  lemma FailedSwitchFallsBack(
    specs: Specs, cooldown: int, first: Protocol, ops: seq<Op>, p: Protocol, q: Protocol, now: int, w: Weather,
      reporterOk: bool)
    requires ValidSpecs(specs) && q in specs && p != q && w.processStopOk && w.stopCommandOk && !w.startOk
    requires var a := AgentRun(specs, cooldown, Agent(IDLE, Rt(first, 0), first), ops);
             a.sup.active == Some(p) && !CoolingDown(a.rt, cooldown, now)
    ensures var a := AgentRun(specs, cooldown, Agent(IDLE, Rt(first, 0), first), ops);
            var after := AgentStep(specs, cooldown, a, EvaluateAndApply(true, q, now, w, reporterOk));
            && after.rt == a.rt && after.rt.active == p
            && (w.restoreOk ==> after.sup.active == Some(p) && after.sup.running == {p})
            && (!w.restoreOk ==> after.sup == IDLE)
  {
    hide AfterActivate, AgentRun, CoolingDown;
    RunIsSound(specs, cooldown, first, ops);
    ActivationOutcome(specs, cooldown, first, ops, p, q, w);
  }

  /** Starting from nothing active: the transport runs exactly when its start succeeds. */
  lemma FirstActivation(specs: Specs, q: Protocol, w: Weather)
    ensures q in specs && w.startOk ==>
              AfterActivate(specs, IDLE, q, w) == Sup(Some(q), specs[q].mode.ProcessMode?, {q})
    ensures q !in specs || !w.startOk ==> AfterActivate(specs, IDLE, q, w) == IDLE
    ensures ActivateSucceeds(specs, IDLE, q, w) <==> q in specs && w.startOk
  {
  }

  /** Stopping `p`: nothing is active and `p` is down when both stops succeed, and `p` stays active otherwise. */
  lemma StopOutcome(specs: Specs, cooldown: int, first: Protocol, ops: seq<Op>, p: Protocol, w: Weather)
    requires ValidSpecs(specs) && AgentRun(specs, cooldown, Agent(IDLE, Rt(first, 0), first), ops).sup.active == Some(p)
    ensures var a := AgentRun(specs, cooldown, Agent(IDLE, Rt(first, 0), first), ops);
            var after := AgentStep(specs, cooldown, a, Stop(w));
            var stops := (a.sup.process ==> w.processStopOk) && (p in specs && specs[p].hasStop ==> w.stopCommandOk);
            && after.rt == a.rt && after.shown == a.shown
            && after.sup ==
                 (if stops then IDLE else Sup(Some(p), a.sup.process, if w.survives then a.sup.running else {}))
  {
    RunIsSound(specs, cooldown, first, ops);
    var a := AgentRun(specs, cooldown, Agent(IDLE, Rt(first, 0), first), ops);
    assert a.sup.running - {p} == {};
  }

  /** One evaluation of the agent. It switches exactly when another protocol is selected, the cooldown since
      the last switch is over and the activation succeeds; the report says which of the four cases it was. */
  lemma EvaluationOutcome(specs: Specs, cooldown: int, a: Agent, selected: Protocol, now: int, w: Weather,
                          reporterOk: bool)
    ensures var op := EvaluateAndApply(true, selected, now, w, reporterOk);
            var after, report := AgentStep(specs, cooldown, a, op), Reported(specs, cooldown, a, op);
            var over := a.rt.lastSwitch == 0 || cooldown <= 0 || now - a.rt.lastSwitch >= cooldown;
            var works := ActivateSucceeds(specs, a.sup, selected, w);
            && report.previous == a.rt.active && report.selected == after.rt.active
            && (reporterOk ==> after.shown == after.rt.active) && (!reporterOk ==> after.shown == a.shown)
            && (selected == a.rt.active ==>
                 after.rt == a.rt && after.sup == a.sup && report.applied && !report.suppressed && !report.rolledBack)
            && (selected != a.rt.active && !over ==>
                  after.rt == a.rt && after.sup == a.sup && !report.applied && report.suppressed && !report.rolledBack)
            && (selected != a.rt.active && over ==> after.sup == AfterActivate(specs, a.sup, selected, w))
            && (selected != a.rt.active && over && works ==>
                  after.rt == Rt(selected, now) && report.applied && !report.suppressed && !report.rolledBack)
            && (selected != a.rt.active && over && !works ==>
                  after.rt == a.rt && !report.applied && !report.suppressed && report.rolledBack)
  {
    hide AfterActivate, ActivateSucceeds;
  }

  /** Starting the agent activates the runtime's protocol and shows what it showed. */
  lemma StartOutcome(specs: Specs, cooldown: int, a: Agent, w: Weather)
    ensures var after := AgentStep(specs, cooldown, a, Start(w));
            after.rt == a.rt && after.shown == a.shown && after.sup == AfterActivate(specs, a.sup, a.rt.active, w)
  {
  }

  // ---- whether the transport shown is up ----

  /** The report of one evaluation. */
  function Reported(specs: Specs, cooldown: int, a: Agent, op: Op): Report
    requires op.EvaluateAndApply?
  {
    ReportOf(a.rt, cooldown, op.selected, op.now, ActivateSucceeds(specs, a.sup, op.selected, op.w))
  }

  /** In every reachable state an evaluation that reports its selection as applied leaves it active exactly
      when it did not find the runtime's own protocol selected with no transport active. */
  lemma AppliedIsActiveIff(specs: Specs, cooldown: int, first: Protocol, ops: seq<Op>, op: Op)
    requires ValidSpecs(specs) && op.EvaluateAndApply? && op.valid
    requires Reported(specs, cooldown, AgentRun(specs, cooldown, Agent(IDLE, Rt(first, 0), first), ops), op).applied
    ensures var a := AgentRun(specs, cooldown, Agent(IDLE, Rt(first, 0), first), ops);
            AgentStep(specs, cooldown, a, op).sup.active == Some(Reported(specs, cooldown, a, op).selected)
            <==> !(op.selected == a.rt.active && a.sup.active.None?)
  {
    RunIsSound(specs, cooldown, first, ops);
  }

  /** With no transport active, evaluations that keep selecting the runtime's protocol never start it. */
  lemma {:induction false} ForgottenTransportStaysDown(specs: Specs, cooldown: int, a: Agent, ops: seq<Op>)
    requires a.sup.active.None?
    requires forall i :: 0 <= i < |ops| ==> ops[i].EvaluateAndApply? && ops[i].selected == a.rt.active
    ensures AgentRun(specs, cooldown, a, ops).sup == a.sup && AgentRun(specs, cooldown, a, ops).rt == a.rt
    decreases |ops|
  {
    hide AfterActivate, ActivateSucceeds;
    if ops != [] { ForgottenTransportStaysDown(specs, cooldown, a, ops[..|ops| - 1]); }
  }

  /** A switch whose start and restore both fail, and then the old protocol is selected again: it is
      reported as applied and shown, and nothing runs. */
  lemma FailedSwitchShowsADeadTransport(
    specs: Specs, cooldown: int, p: Protocol, q: Protocol, good: Weather, bad: Weather, now: int)
    requires p in specs && q in specs && p != q && good.startOk
    requires bad.processStopOk && bad.stopCommandOk && !bad.startOk && !bad.restoreOk
    ensures var a :=
              AgentRun(specs, cooldown, Agent(IDLE, Rt(p, 0), p),
                       [Start(good), EvaluateAndApply(true, q, now, bad, true)]);
            var again := EvaluateAndApply(true, p, now, good, true);
            && Reported(specs, cooldown, a, again).applied
            && AgentStep(specs, cooldown, a, again).shown == p
               && AgentStep(specs, cooldown, a, again).sup.active == None
  {
    var start, switch := Start(good), EvaluateAndApply(true, q, now, bad, true);
    var idle, one, two := Agent(IDLE, Rt(p, 0), p), [start], [start, switch];
    assert two[..1] == one && one[..0] == [];
    assert AgentRun(specs, cooldown, idle, one) == AgentStep(specs, cooldown, idle, start);
  }

  // ---- how often the transport may change ----

  predicate Switches(specs: Specs, cooldown: int, a: Agent, op: Op) {
    op.EvaluateAndApply? && op.valid && Tries(a.rt, cooldown, op.selected, op.now)
    && ActivateSucceeds(specs, a.sup, op.selected, op.w)
  }

  /** The times of the successful switches of a run, in order. */
  function SwitchTimes(specs: Specs, cooldown: int, a: Agent, ops: seq<Op>): seq<int>
    decreases |ops|
  {
    if ops == [] then []
    else
      var before, op := AgentRun(specs, cooldown, a, ops[..|ops| - 1]), ops[|ops| - 1];
      SwitchTimes(specs, cooldown, a, ops[..|ops| - 1]) +
      if Switches(specs, cooldown, before, op) then [op.now] else []
  }

  ghost predicate ClockShown(ops: seq<Op>) {
    forall i :: 0 <= i < |ops| && ops[i].EvaluateAndApply? ==> ops[i].now != 0
  }

  /** Consecutive successful switches are at least `cooldown` apart, even if the clock steps back. */
  lemma {:induction false} SwitchSpacing(specs: Specs, cooldown: int, a: Agent, ops: seq<Op>)
    requires cooldown > 0 && ClockShown(ops) && a.rt.lastSwitch == 0
    ensures var times := SwitchTimes(specs, cooldown, a, ops);
            && (forall i :: 0 <= i < |times| - 1 ==> times[i] + cooldown <= times[i + 1])
            && (times != [] ==> AgentRun(specs, cooldown, a, ops).rt.lastSwitch == times[|times| - 1] != 0)
            && (times == [] ==> AgentRun(specs, cooldown, a, ops).rt.lastSwitch == 0)
    decreases |ops|
  {
    hide AfterActivate, ActivateSucceeds;
    if ops != [] {
      SwitchSpacing(specs, cooldown, a, ops[..|ops| - 1]);
    }
  }

  /** `n` switches take at least `n - 1` cooldowns. */
  lemma SwitchesTakeTime(specs: Specs, cooldown: int, a: Agent, ops: seq<Op>)
    requires cooldown > 0 && ClockShown(ops) && a.rt.lastSwitch == 0
    ensures var times := SwitchTimes(specs, cooldown, a, ops);
            times != [] ==> (|times| - 1) * cooldown <= times[|times| - 1] - times[0]
  {
    SwitchSpacing(specs, cooldown, a, ops);
    SpacedSpan(SwitchTimes(specs, cooldown, a, ops), cooldown);
  }

  lemma {:induction false} SpacedSpan(times: seq<int>, gap: int)
    requires forall i :: 0 <= i < |times| - 1 ==> times[i] + gap <= times[i + 1]
    ensures times != [] ==> (|times| - 1) * gap <= times[|times| - 1] - times[0]
  {
    if |times| > 1 {
      SpacedSpan(times[..|times| - 1], gap);
      var last := |times| - 2;
      assert times[last] + gap <= times[last + 1];
      assert (|times| - 1) * gap == (|times| - 2) * gap + gap;
    }
  }

  /** The zero time defeats the cooldown: a switch made at time 0 is forgotten. */
  lemma ZeroTimeDefeatsCooldown(specs: Specs, cooldown: int, w: Weather)
    requires cooldown > 0 && Reality in specs && Tuic in specs && w.startOk && w.processStopOk && w.stopCommandOk
    ensures SwitchTimes(specs, cooldown, Agent(IDLE, Rt(Hysteria2, 0), Hysteria2),
                        [EvaluateAndApply(true, Reality, 0, w, true), EvaluateAndApply(true, Tuic, 0, w, true)]) ==
                          [0, 0]
  {
    var a := Agent(IDLE, Rt(Hysteria2, 0), Hysteria2);
    var one, two := EvaluateAndApply(true, Reality, 0, w, true), EvaluateAndApply(true, Tuic, 0, w, true);
    assert [one, two][..1] == [one] && [one][..0] == [];
    assert AgentRun(specs, cooldown, a, [one]) == AgentStep(specs, cooldown, a, one);
    assert SwitchTimes(specs, cooldown, a, [one]) == [0];
  }
}
