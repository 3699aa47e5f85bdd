/** The agent's durable telemetry queue and what it guarantees about delivery. */
module Telemetry {
  import opened Text

  /** The queue on disk, with the history of what the server accepted and what the capacity trim dropped. */
  datatype Queue<T> = Queue(queued: seq<T>, delivered: seq<T>, trimmed: seq<T>)

  function LastOf<T>(s: seq<T>, n: nat): seq<T> { if |s| > n then s[|s| - n..] else s }

  /** One `pushTelemetry`: the server accepts `accepted` reports before its first refusal. */
  function Push<T>(max: nat, q: Queue<T>, report: T, accepted: nat): Queue<T> {
    var pending := q.queued + [report];
    if accepted >= |pending| then Queue([], q.delivered + pending, q.trimmed)
    else
      var rest := pending[accepted..];
      var kept := LastOf(rest, max);
      Queue(kept, q.delivered + pending[..accepted], q.trimmed + rest[..|rest| - |kept|])
  }

  /** The same when the queue cannot be rewritten: the file keeps its old contents. */
  function PushUnsaved<T>(q: Queue<T>, report: T, accepted: nat): Queue<T> {
    var pending := q.queued + [report];
    q.(delivered := q.delivered + pending[..if accepted < |pending| then accepted else |pending|])
  }

  /** How reports are sanitized and validated; sanitizing twice is sanitizing once. */
  datatype Checks<!T> = Checks(clean: T -> T, valid: T -> bool)

  ghost predicate Settled<T(!new)>(checks: Checks<T>) { forall r :: checks.clean(checks.clean(r)) == checks.clean(r) }

  predicate AllValid<T>(checks: Checks<T>, reports: seq<T>) {
    forall i :: 0 <= i < |reports| ==> checks.valid(checks.clean(reports[i]))
  }

  function Cleaned<T>(checks: Checks<T>, reports: seq<T>): seq<T> {
    seq(|reports|, i requires 0 <= i < |reports| => checks.clean(reports[i]))
  }

  /** The loop both `Load` and `Save` run over the reports. */
  method CleanAll<T>(checks: Checks<T>, reports: seq<T>) returns (r: Outcome<seq<T>>)
    ensures r == if AllValid(checks, reports) then Ok(Cleaned(checks, reports)) else Rejected
  {
    var clean: seq<T> := [];
    for k := 0 to |reports|
      invariant |clean| == k
      invariant forall i :: 0 <= i < k ==>
                  clean[i] == checks.clean(reports[i]) && checks.valid(checks.clean(reports[i]))
    {
      var sanitized := checks.clean(reports[k]);
      if !checks.valid(sanitized) { return Rejected; }
      clean := clean + [sanitized];
    }
    assert clean == Cleaned(checks, reports);
    return Ok(clean);
  }

  /** What a queue holds once it was saved: sanitized, valid reports. */
  ghost predicate Stored<T>(checks: Checks<T>, reports: seq<T>) {
    forall i :: 0 <= i < |reports| ==> checks.clean(reports[i]) == reports[i] && checks.valid(reports[i])
  }

  class FileTelemetryQueue<T(!new)> {
    const maxReports: nat
    const checks: Checks<T>
    var file: Option<seq<T>>

    ghost function Contents(): seq<T>
      reads this
    {
      if file.Some? then file.value else []
    }

    constructor (maxReports: nat, checks: Checks<T>)
      ensures this.maxReports == maxReports && this.checks == checks && Contents() == []
    {
      this.maxReports, this.checks, file := maxReports, checks, None;
    }

    method Load(readable: bool) returns (r: Outcome<seq<T>>)
      ensures r == if readable && AllValid(checks, Contents()) then Ok(Cleaned(checks, Contents())) else Rejected
    {
      if !readable { return Rejected; }
      if file.None? {
        assert Cleaned(checks, Contents()) == [];
        return Ok([]);
      }
      r := CleanAll(checks, file.value);
    }

    /** Replaces the stored queue, or removes it when there is nothing to store. */
    method Save(reports: seq<T>, writable: bool) returns (ok: bool)
      modifies this
      ensures ok == (writable && AllValid(checks, reports))
      ensures Contents() == if ok then LastOf(Cleaned(checks, reports), maxReports) else old(Contents())
    {
      if |reports| == 0 {
        if !writable { return false; }
        file := None;
        return true;
      }
      var cleaned := CleanAll(checks, reports);
      if cleaned.Rejected? { return false; }
      var clean := cleaned.value;
      if |clean| > maxReports { clean := clean[|clean| - maxReports..]; }
      if !writable { return false; }
      file := Some(clean);
      return true;
    }
  }

  lemma StoredIsClean<T(!new)>(checks: Checks<T>, reports: seq<T>)
    requires Stored(checks, reports)
    ensures AllValid(checks, reports) && Cleaned(checks, reports) == reports
  {
  }

  /** The pushing side of the agent and the server's log of accepted reports. */
  class Pusher<T(!new)> {
    const queue: FileTelemetryQueue<T>
    var delivered: seq<T>

    constructor (queue: FileTelemetryQueue<T>)
      ensures this.queue == queue && delivered == []
    {
      this.queue, delivered := queue, [];
    }

    /** `pushTelemetry` with a queue: everything pending is pushed in order until the first refusal. What is
        left is stored, unless the queue cannot be written or the new report is invalid. */
    method PushTelemetry(report: T, accepted: nat, readable: bool, writable: bool) returns (ok: bool)
      requires Settled(queue.checks) && Stored(queue.checks, queue.Contents())
      modifies this, queue
      ensures var before := Queue(old(queue.Contents()), old(delivered), []);
              var clean := queue.checks.clean(report);
              var saved := writable && (accepted > |old(queue.Contents())| || queue.checks.valid(clean));
              var after := if !readable then before
                           else if saved then Push(queue.maxReports, before, clean, accepted)
                           else PushUnsaved(before, clean, accepted);
              queue.Contents() == after.queued && delivered == after.delivered
      ensures Stored(queue.checks, queue.Contents())
      ensures ok <==> readable && writable && accepted > |old(queue.Contents())|
    {
      StoredIsClean(queue.checks, queue.Contents());
      var clean := queue.checks.clean(report);
      var loaded := queue.Load(readable);
      if loaded.Rejected? { return false; }
      var pending := loaded.value + [clean];
      ghost var before := delivered;
      for k := 0 to |pending|
        invariant k <= accepted && delivered == before + pending[..k] && queue.Contents() == old(queue.Contents())
      {
        if k == accepted {
          PendingIsClean(queue.checks, queue.Contents(), report, k);
          var saved := queue.Save(pending[k..], writable);
          return false;
        }
        delivered := delivered + [pending[k]];
      }
      assert pending[..|pending|] == pending;
      ok := queue.Save([], writable);
    }
  }

  lemma PendingIsClean<T(!new)>(checks: Checks<T>, queued: seq<T>, report: T, k: nat)
    requires Settled(checks) && Stored(checks, queued) && k <= |queued|
    ensures var rest := (queued + [checks.clean(report)])[k..];
            && (AllValid(checks, rest) <==> checks.valid(checks.clean(report))) && Cleaned(checks, rest) == rest
            && (AllValid(checks, rest) ==> Stored(checks, rest))
  {
    var rest := (queued + [checks.clean(report)])[k..];
    assert rest[|rest| - 1] == checks.clean(report);
    assert forall i :: 0 <= i < |rest| - 1 ==> rest[i] == queued[k + i];
  }

  // ---- whole runs ----

  /** One sync: the sanitized, valid report it produces and how many pushes the server accepts. */
  datatype Sync<T> = Sync(report: T, accepted: nat)

  /** A produced report with its place in production order. */
  datatype Produced<T> = Produced(place: nat, report: T)

  function AllProduced<T>(run: seq<Sync<T>>): seq<Produced<T>> {
    seq(|run|, i requires 0 <= i < |run| => Produced(i, run[i].report))
  }

  function Run<T>(max: nat, run: seq<Sync<T>>): Queue<Produced<T>> {
    if run == [] then Queue([], [], [])
    else
      var last := run[|run| - 1];
      Push(max, Run(max, run[..|run| - 1]), Produced(|run| - 1, last.report), last.accepted)
  }

  ghost predicate InOrder<T>(s: seq<Produced<T>>) { forall i, j :: 0 <= i < j < |s| ==> s[i].place < s[j].place }

  ghost predicate AllBefore<T>(s: seq<Produced<T>>, place: int) { forall i :: 0 <= i < |s| ==> s[i].place < place }

  /** The queue is the newest part of what was produced; everything older was delivered, in order and
      once, or trimmed. */
  ghost predicate Conserved<T>(max: nat, q: Queue<Produced<T>>, produced: seq<Produced<T>>) {
    && |q.queued| <= max && |q.queued| <= |produced| && q.queued == produced[|produced| - |q.queued|..]
    && InOrder(q.delivered) && AllBefore(q.delivered, |produced| - |q.queued|)
    && InOrder(q.trimmed) && AllBefore(q.trimmed, |produced| - |q.queued|)
    && multiset(q.delivered) + multiset(q.trimmed) == multiset(produced[..|produced| - |q.queued|])
  }

  lemma OrderExtends<T>(s: seq<Produced<T>>, produced: seq<Produced<T>>, from: nat, to: nat)
    requires InOrder(s) && AllBefore(s, from) && from <= to <= |produced|
    requires forall i :: 0 <= i < |produced| ==> produced[i].place == i
    ensures InOrder(s + produced[from..to]) && AllBefore(s + produced[from..to], to)
  {
  }

  /** One push, as slices of everything produced: a prefix of the queue is delivered, then a stretch is
      trimmed, and the rest stays queued. */
  lemma PushSlices<T>(max: nat, q: Queue<T>, all: seq<T>, first: nat, accepted: nat) returns (sent: nat, kept: nat)
    requires first < |all| && q.queued == all[first..|all| - 1]
    ensures first <= sent <= kept <= |all| && |all| - kept <= max
    ensures Push(max, q, all[|all| - 1], accepted) ==
              Queue(all[kept..], q.delivered + all[first..sent], q.trimmed + all[sent..kept])
  {
    var pending := q.queued + [all[|all| - 1]];
    assert pending == all[first..];
    if accepted >= |pending| {
      sent, kept := |all|, |all|;
      assert all[kept..] == [] && all[sent..kept] == [];
    } else {
      sent := first + accepted;
      kept := |all| - Min(max, |all| - sent);
      var rest := pending[accepted..];
      assert rest == all[sent..];
      assert LastOf(rest, max) == all[kept..];
      assert pending[..accepted] == all[first..sent] && rest[..kept - sent] == all[sent..kept];
    }
  }

  lemma PushConserves<T>(max: nat, q: Queue<Produced<T>>, produced: seq<Produced<T>>, report: T, accepted: nat)
    requires Conserved(max, q, produced) && forall i :: 0 <= i < |produced| ==> produced[i].place == i
    ensures Conserved(max, Push(max, q, Produced(|produced|, report), accepted),
                      produced + [Produced(|produced|, report)])
  {
    ConservedMeans(max, q, produced);
    hide Conserved, InOrder, AllBefore, Push;
    var all := produced + [Produced(|produced|, report)];
    var first := |produced| - |q.queued|;
    assert q.queued == all[first..|all| - 1];
    var sent, kept := PushSlices(max, q, all, first, accepted);
    OrderExtends(q.delivered, all, first, sent);
    BeforeLater(q.delivered + all[first..sent], sent, kept);
    TrimExtends(q.trimmed, all, first, sent, kept);
    SlicesAddUp(q, produced, all, first, sent, kept);
    ConservedMeans(max, Queue(all[kept..], q.delivered + all[first..sent], q.trimmed + all[sent..kept]), all);
  }

  lemma SlicesAddUp<T>(q: Queue<T>, produced: seq<T>, all: seq<T>, first: nat, sent: nat, kept: nat)
    requires produced <= all && first <= sent <= kept <= |all| && first <= |produced|
    requires multiset(q.delivered) + multiset(q.trimmed) == multiset(produced[..first])
    ensures multiset(q.delivered + all[first..sent]) + multiset(q.trimmed + all[sent..kept]) == multiset(all[..kept])
  {
    assert all[..kept] == produced[..first] + all[first..sent] + all[sent..kept];
  }

  lemma ConservedMeans<T>(max: nat, q: Queue<Produced<T>>, produced: seq<Produced<T>>)
    ensures Conserved(max, q, produced) <==>
            && |q.queued| <= max && |q.queued| <= |produced| && q.queued == produced[|produced| - |q.queued|..]
            && InOrder(q.delivered) && AllBefore(q.delivered, |produced| - |q.queued|)
            && InOrder(q.trimmed) && AllBefore(q.trimmed, |produced| - |q.queued|)
            && multiset(q.delivered) + multiset(q.trimmed) == multiset(produced[..|produced| - |q.queued|])
  {
  }

  lemma BeforeLater<T>(s: seq<Produced<T>>, place: int, later: int)
    requires AllBefore(s, place) && place <= later
    ensures AllBefore(s, later)
  {
  }

  lemma TrimExtends<T>(s: seq<Produced<T>>, produced: seq<Produced<T>>, first: nat, from: nat, to: nat)
    requires InOrder(s) && AllBefore(s, first) && first <= from <= to <= |produced|
    requires forall i :: 0 <= i < |produced| ==> produced[i].place == i
    ensures InOrder(s + produced[from..to]) && AllBefore(s + produced[from..to], to)
  {
    BeforeLater(s, first, from);
    OrderExtends(s, produced, from, to);
  }

  /** Telemetry conservation, over every run with working storage and arbitrary refusals. */
  lemma {:induction false} TelemetryConserved<T>(max: nat, run: seq<Sync<T>>)
    ensures Conserved(max, Run(max, run), AllProduced(run))
  {
    hide Conserved, Push;
    if run == [] {
      NothingProduced<T>(max);
      assert AllProduced(run) == [];
    } else {
      var before := run[..|run| - 1];
      TelemetryConserved(max, before);
      PushConserves(max, Run(max, before), AllProduced(before), run[|run| - 1].report, run[|run| - 1].accepted);
      assert AllProduced(run) == AllProduced(before) + [Produced(|run| - 1, run[|run| - 1].report)];
    }
  }

  lemma NothingProduced<T>(max: nat)
    ensures Conserved<T>(max, Queue([], [], []), [])
  {
  }

  /** Reports are lost only by the capacity trim: a push that loses any leaves the queue full. */
  lemma LossMeansFull<T>(max: nat, q: Queue<T>, report: T, accepted: nat)
    ensures Push(max, q, report, accepted).trimmed != q.trimmed ==> |Push(max, q, report, accepted).queued| == max
    ensures Push(max, q, report, accepted).trimmed != q.trimmed ==> |q.queued| + 1 - accepted > max
  {
    var pending := q.queued + [report];
    if accepted < |pending| && |pending| - accepted <= max {
      assert pending[accepted..][..0] == [];
      assert Push(max, q, report, accepted).trimmed == q.trimmed;
    }
  }

  /** What one push does: the first accepted of the pending reports are delivered, the newest of the others
      stay queued up to the capacity, and the rest is trimmed. */
  lemma PushOutcome<T>(max: nat, q: Queue<T>, report: T, accepted: nat)
    ensures var pending, after := q.queued + [report], Push(max, q, report, accepted);
            var sent := Min(accepted, |pending|);
            var kept := Min(max, |pending| - sent);
            && after.delivered == q.delivered + pending[..sent]
            && after.queued == pending[|pending| - kept..]
            && after.trimmed == q.trimmed + pending[sent..|pending| - kept]
  {
    var pending := q.queued + [report];
    if accepted >= |pending| {
      assert pending[..|pending|] == pending && pending[|pending|..] == [] && q.trimmed + [] == q.trimmed;
    } else {
      var rest, kept := pending[accepted..], Min(max, |pending| - accepted);
      assert LastOf(rest, max) == pending[|pending| - kept..];
      assert rest[..|rest| - kept] == pending[accepted..|pending| - kept];
    }
  }

  /** A push whose queue cannot be stored delivers the same reports and leaves the queue as it was. */
  lemma UnsavedPushOutcome<T>(max: nat, q: Queue<T>, report: T, accepted: nat)
    ensures PushUnsaved(q, report, accepted).delivered == Push(max, q, report, accepted).delivered
    ensures PushUnsaved(q, report, accepted).queued == q.queued && PushUnsaved(q, report, accepted).trimmed == q.trimmed
  {
    var pending := q.queued + [report];
    assert pending[..|pending|] == pending;
  }

  /** After an outage ends, one sync delivers everything still queued. */
  lemma RecoveryDelivers<T>(max: nat, run: seq<Sync<T>>, last: Sync<T>)
    requires last.accepted > |Run(max, run).queued|
    ensures var after := Run(max, run + [last]);
            after.queued == []
            && after.delivered == Run(max, run).delivered + Run(max, run).queued + [Produced(|run|, last.report)]
  {
    assert (run + [last])[..|run|] == run;
  }

  /** Working storage is needed for both promises: when the queue cannot be rewritten, a delivered
      report is delivered again by the next push, and the newest one is neither delivered nor queued. */
  lemma SaveFailureRepeatsAndLoses<T>(max: nat, old1: T, lost: T, next: T)
    requires old1 != lost && lost != next
    ensures var broken := PushUnsaved(Queue([old1], [], []), lost, 1);
            var after := Push(max, broken, next, 2);
            after.delivered == [old1, old1, next] && lost !in after.delivered && lost !in after.queued
  {
    assert ([old1] + [lost])[..1] == [old1];
    assert [old1] + ([old1] + [next]) == [old1, old1, next];
  }
}
