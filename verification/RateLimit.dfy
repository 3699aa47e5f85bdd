/** The edge rate limiter: fixed windows per key, and the sliding-window bound they give. */
module RateLimit {

  /** Requests admitted since `start`; a zero `start` is Go's zero time, a counter never used. */
  datatype Counter = Counter(start: int, used: nat)

  const UNUSED := Counter(0, 0)

  /** The counter a request at `now` is checked against. */
  function Current(window: int, c: Counter, now: int): Counter {
    if c.start == 0 || now - c.start >= window then Counter(now, 0) else c
  }

  predicate Admits(limit: int, window: int, c: Counter, now: int) { Current(window, c, now).used < limit }

  function Next(limit: int, window: int, c: Counter, now: int): Counter {
    var current := Current(window, c, now);
    if current.used < limit then current.(used := current.used + 1) else current
  }

  function CounterOf(counters: map<string, Counter>, key: string): Counter {
    if key in counters then counters[key] else UNUSED
  }

  class WindowLimiter {
    const limit: int
    const window: int
    var counters: map<string, Counter>

    /** `NewWindowLimiter` accepts positive limits and windows only. */
    constructor (limit: int, window: int)
      requires limit > 0 && window > 0
      ensures this.limit == limit && this.window == window && counters == map[]
    {
      this.limit, this.window, counters := limit, window, map[];
    }

    method Allow(key: string, now: int) returns (ok: bool)
      modifies this
      ensures ok <==> Admits(limit, window, CounterOf(old(counters), key), now)
      ensures counters == old(counters)[key := Next(limit, window, CounterOf(old(counters), key), now)]
    {
      var current := if key in counters then counters[key] else UNUSED;
      if current.start == 0 || now - current.start >= window { current := Counter(now, 0); }
      if current.used >= limit {
        counters := counters[key := current];
        return false;
      }
      current := current.(used := current.used + 1);
      counters := counters[key := current];
      return true;
    }
  }

  // ---- whole runs ----

  datatype Request = Request(key: string, now: int)

  /** The limiter's counters after a run of requests. */
  function RunCounters(limit: int, window: int, run: seq<Request>): map<string, Counter> {
    if run == [] then map[]
    else
      var before, r := RunCounters(limit, window, run[..|run| - 1]), run[|run| - 1];
      before[r.key := Next(limit, window, CounterOf(before, r.key), r.now)]
  }

  /** The times at which requests of `key` were admitted in a run, in order. */
  function AdmittedTimes(limit: int, window: int, run: seq<Request>, key: string): seq<int> {
    if run == [] then []
    else
      var r := run[|run| - 1];
      AdmittedTimes(limit, window, run[..|run| - 1], key) +
      if r.key == key && Admits(limit, window, CounterOf(RunCounters(limit, window, run[..|run| - 1]), key), r.now)
      then [r.now] else []
  }

  /** A clock that never steps back and never shows the zero time. */
  ghost predicate SteadyClock(run: seq<Request>) {
    && (forall i :: 0 <= i < |run| ==> run[i].now != 0)
    && (forall i, j :: 0 <= i < j < |run| ==> run[i].now <= run[j].now)
  }

  // ---- keys do not affect each other ----

  /** The part of a run that concerns one key. */
  function Only(run: seq<Request>, key: string): seq<Request> {
    if run == [] then []
    else Only(run[..|run| - 1], key) + if run[|run| - 1].key == key then [run[|run| - 1]] else []
  }

  /** A key's counter and admissions are those of a limiter that never saw another key. */
  lemma {:induction false} KeysAreIndependent(limit: int, window: int, run: seq<Request>, key: string)
    ensures CounterOf(RunCounters(limit, window, run), key) ==
              CounterOf(RunCounters(limit, window, Only(run, key)), key)
    ensures AdmittedTimes(limit, window, run, key) == AdmittedTimes(limit, window, Only(run, key), key)
  {
    if run != [] {
      KeysAreIndependent(limit, window, run[..|run| - 1], key);
      var only, r := Only(run[..|run| - 1], key), run[|run| - 1];
      if r.key == key {
        assert (only + [r])[..|only|] == only;
      } else {
        assert Only(run, key) == only;
      }
    }
  }

  // ---- windows behind the admissions ----

  /** An admission and the start of the window it was counted in. */
  datatype Admission = Admission(time: int, start: int)

  function Log(limit: int, window: int, run: seq<Request>, key: string): seq<Admission> {
    if run == [] then []
    else
      var r := run[|run| - 1];
      var c := CounterOf(RunCounters(limit, window, run[..|run| - 1]), key);
      Log(limit, window, run[..|run| - 1], key) +
      if r.key == key && Admits(limit, window, c, r.now)
      then [Admission(r.now, Current(window, c, r.now).start)] else []
  }

  lemma {:induction false} LogTimes(limit: int, window: int, run: seq<Request>, key: string)
    ensures |Log(limit, window, run, key)| == |AdmittedTimes(limit, window, run, key)|
    ensures forall i :: 0 <= i < |Log(limit, window, run, key)| ==>
              Log(limit, window, run, key)[i].time == AdmittedTimes(limit, window, run, key)[i]
  {
    if run != [] { LogTimes(limit, window, run[..|run| - 1], key); }
  }

  /** Admissions fall into windows: each in its own, windows apart, at most `limit` per window, and the
      first of a window at its start. */
  ghost predicate Windowed(limit: int, window: int, log: seq<Admission>) {
    InWindow(window, log) && Ordered(log) && Apart(window, log) && Bounded(limit, log) && Opened(log)
  }

  ghost predicate InWindow(window: int, log: seq<Admission>) {
    forall i :: 0 <= i < |log| ==> log[i].start <= log[i].time < log[i].start + window
  }

  ghost predicate Ordered(log: seq<Admission>) {
    forall i, j :: 0 <= i < j < |log| ==> log[i].time <= log[j].time
  }

  ghost predicate Apart(window: int, log: seq<Admission>) {
    forall i, j :: 0 <= i < j < |log| ==> log[i].start == log[j].start || log[i].start + window <= log[j].start
  }

  ghost predicate Bounded(limit: int, log: seq<Admission>) {
    forall i, j :: 0 <= i < j < |log| && i + limit <= j ==> log[i].start != log[j].start
  }

  ghost predicate Opened(log: seq<Admission>) {
    && (log != [] ==> log[0].time == log[0].start)
    && forall i, j :: 0 <= i < |log| && j == i + 1 < |log| && log[i].start != log[j].start ==>
         log[j].time == log[j].start
  }

  /** The counter describes the newest window of the log, and `now` bounds everything so far. */
  ghost predicate Describes(limit: int, window: int, c: Counter, log: seq<Admission>, now: int) {
    && c.used <= |log| && c.used <= limit
    && (c.start == 0 ==> log == [])
    && (c.start != 0 ==> c.used > 0 && c.start <= now)
    && (forall i :: |log| - c.used <= i < |log| ==> log[i].start == c.start)
    && (forall i :: 0 <= i < |log| - c.used ==> log[i].start + window <= c.start)
    && (forall i :: 0 <= i < |log| ==> log[i].time <= now)
  }

  lemma WindowOpens(limit: int, window: int, c: Counter, log: seq<Admission>, now: int)
    requires limit > 0 && window > 0 && now != 0 && (c.start == 0 || now - c.start >= window)
    requires Windowed(limit, window, log) && Describes(limit, window, c, log, now)
    ensures Windowed(limit, window, log + [Admission(now, now)])
    ensures Describes(limit, window, Counter(now, 1), log + [Admission(now, now)], now)
  {
    assert forall i :: 0 <= i < |log| ==> log[i].start + window <= now && log[i].time <= now by {
      hide InWindow, Ordered, Apart, Bounded, Opened;
      OldWindowsAreOver(limit, window, c, log, now);
    }
    hide Describes;
    OpenedWindow(limit, window, log, now);
    OpenedIsDescribed(limit, window, log, now);
  }

  lemma OldWindowsAreOver(limit: int, window: int, c: Counter, log: seq<Admission>, now: int)
    requires window > 0 && (c.start == 0 || now - c.start >= window) && Describes(limit, window, c, log, now)
    ensures forall i :: 0 <= i < |log| ==> log[i].start + window <= now && log[i].time <= now
  {
  }

  lemma OpenedWindow(limit: int, window: int, log: seq<Admission>, now: int)
    requires limit > 0 && window > 0 && Windowed(limit, window, log)
    requires forall i :: 0 <= i < |log| ==> log[i].start + window <= now && log[i].time <= now
    ensures Windowed(limit, window, log + [Admission(now, now)])
  {
    var log' := log + [Admission(now, now)];
    assert InWindow(window, log') by { hide Ordered, Apart, Bounded, Opened; }
    assert Ordered(log') by { hide InWindow, Apart, Bounded, Opened; }
    assert Apart(window, log') by { hide InWindow, Ordered, Bounded, Opened; }
    assert Bounded(limit, log') by { hide InWindow, Ordered, Apart, Opened; }
    assert Opened(log') by { hide InWindow, Ordered, Apart, Bounded; }
  }

  lemma OpenedIsDescribed(limit: int, window: int, log: seq<Admission>, now: int)
    requires limit > 0 && now != 0
    requires forall i :: 0 <= i < |log| ==> log[i].start + window <= now && log[i].time <= now
    ensures Describes(limit, window, Counter(now, 1), log + [Admission(now, now)], now)
  {
  }

  lemma WindowFills(limit: int, window: int, c: Counter, log: seq<Admission>, now: int)
    requires limit > 0 && window > 0 && c.start != 0 && now - c.start < window && c.used < limit
    requires Windowed(limit, window, log) && Describes(limit, window, c, log, now)
    ensures Windowed(limit, window, log + [Admission(now, c.start)])
  {
    assert |log| > 0 && log[|log| - 1].start == c.start;
    assert forall i :: 0 <= i < |log| && i + limit <= |log| ==> i < |log| - c.used && log[i].start != c.start;
    assert forall i :: 0 <= i < |log| ==>
             log[i].time <= now && (log[i].start == c.start || log[i].start + window <= c.start);
    assert c.start <= now;
    hide Describes;
    var log' := log + [Admission(now, c.start)];
    assert InWindow(window, log') by { hide Ordered, Apart, Bounded, Opened; }
    assert Ordered(log') by { hide InWindow, Apart, Bounded, Opened; }
    assert Apart(window, log') by { hide InWindow, Ordered, Bounded, Opened; }
    assert Bounded(limit, log') by { hide InWindow, Ordered, Apart, Opened; }
    assert Opened(log') by { hide InWindow, Ordered, Apart, Bounded; }
  }

  lemma FilledIsDescribed(limit: int, window: int, c: Counter, log: seq<Admission>, now: int)
    requires limit > 0 && c.start != 0 && c.used < limit && Describes(limit, window, c, log, now)
    ensures Describes(limit, window, Counter(c.start, c.used + 1), log + [Admission(now, c.start)], now)
  {
  }

  lemma StepKeepsWindows(limit: int, window: int, c: Counter, log: seq<Admission>, now: int)
    requires limit > 0 && window > 0 && now != 0
    requires Windowed(limit, window, log) && Describes(limit, window, c, log, now)
    ensures var admitted := Admits(limit, window, c, now);
            var log' := log + if admitted then [Admission(now, Current(window, c, now).start)] else [];
            Windowed(limit, window, log') && Describes(limit, window, Next(limit, window, c, now), log', now)
  {
    hide Windowed, Describes;
    if c.start == 0 || now - c.start >= window {
      WindowOpens(limit, window, c, log, now);
    } else if c.used < limit {
      WindowFills(limit, window, c, log, now);
      FilledIsDescribed(limit, window, c, log, now);
    } else {
      assert log + [] == log;
    }
  }

  lemma {:induction false} RunIsWindowed(limit: int, window: int, run: seq<Request>, key: string, now: int)
    requires limit > 0 && window > 0 && SteadyClock(run)
    requires forall i :: 0 <= i < |run| ==> run[i].now <= now
    ensures Windowed(limit, window, Log(limit, window, run, key))
    ensures Describes(limit, window, CounterOf(RunCounters(limit, window, run), key), Log(limit, window, run, key), now)
  {
    hide Windowed, Describes;
    if run == [] {
      EmptyLog(limit, window, now);
    } else {
      var before, r := run[..|run| - 1], run[|run| - 1];
      if r.key == key {
        RunIsWindowed(limit, window, before, key, r.now);
        var c, log := CounterOf(RunCounters(limit, window, before), key), Log(limit, window, before, key);
        StepKeepsWindows(limit, window, c, log, r.now);
        LaterStillDescribes(limit, window, Next(limit, window, c, r.now), Log(limit, window, run, key), r.now, now);
      } else {
        RunIsWindowed(limit, window, before, key, now);
        assert Log(limit, window, run, key) == Log(limit, window, before, key);
      }
    }
  }

  lemma EmptyLog(limit: int, window: int, now: int)
    requires limit > 0
    ensures Windowed(limit, window, []) && Describes(limit, window, UNUSED, [], now)
  {
  }

  lemma LaterStillDescribes(limit: int, window: int, c: Counter, log: seq<Admission>, now: int, later: int)
    requires Describes(limit, window, c, log, now) && now <= later
    ensures Describes(limit, window, c, log, later)
  {
  }

  // ---- the sliding-window bound ----

  function CountIn(times: seq<int>, from: int, to: int): nat {
    if times == [] then 0
    else CountIn(times[..|times| - 1], from, to) + if from <= times[|times| - 1] < to then 1 else 0
  }

  /** Any `2 * limit` consecutive admissions take at least one window. */
  lemma WindowedIsSpaced(limit: int, window: int, log: seq<Admission>, i: nat)
    requires limit > 0 && window > 0 && Windowed(limit, window, log) && i + 2 * limit - 1 < |log|
    ensures log[i].time + window <= log[i + 2 * limit - 1].time
  {
    var last := i + 2 * limit - 1;
    if i > 0 { assert log[i - 1].start != log[i].start ==> log[i].time == log[i].start; }
    if i == 0 || log[i - 1].start != log[i].start {
      assert log[i].start != log[last].start;
    } else {
      var middle := i - 1 + limit;
      assert log[i - 1].start != log[middle].start;
      assert log[middle].start != log[last].start;
    }
  }

  lemma {:induction false} ManyInIntervalSpan(times: seq<int>, from: int, to: int, n: nat) returns (i: nat)
    requires forall a, b :: 0 <= a < b < |times| ==> times[a] <= times[b]
    requires 1 <= n <= CountIn(times, from, to)
    ensures i + n - 1 < |times| && from <= times[i] && times[i + n - 1] < to
  {
    var before, last := times[..|times| - 1], |times| - 1;
    if n <= CountIn(before, from, to) {
      i := ManyInIntervalSpan(before, from, to, n);
    } else if n == 1 {
      i := last;
    } else {
      var first := ManyInIntervalSpan(before, from, to, n - 1);
      i := last - n + 1;
      assert first <= i && (first < i ==> times[first] <= times[i]);
    }
  }

  /** Rate limit bound: no half-open interval one window long admits more than `2 * limit - 1`
      requests of a key, so never more than twice the limit. */
  lemma SlidingWindowBound(limit: int, window: int, run: seq<Request>, key: string, from: int)
    requires limit > 0 && window > 0 && SteadyClock(run)
    ensures CountIn(AdmittedTimes(limit, window, run, key), from, from + window) <= 2 * limit - 1
  {
    var times, log := AdmittedTimes(limit, window, run, key), Log(limit, window, run, key);
    var now := if run == [] then 0 else run[|run| - 1].now;
    LogTimes(limit, window, run, key);
    RunIsWindowed(limit, window, run, key, now);
    if CountIn(times, from, from + window) >= 2 * limit {
      var i := ManyInIntervalSpan(times, from, from + window, 2 * limit);
      WindowedIsSpaced(limit, window, log, i);
    }
  }

  /** A request is refused only if `limit` requests of its key were admitted within the last window. */
  lemma RefusedOnlyWhenFull(limit: int, window: int, run: seq<Request>, key: string, now: int)
    requires limit > 0 && window > 0 && SteadyClock(run + [Request(key, now)])
    requires !Admits(limit, window, CounterOf(RunCounters(limit, window, run), key), now)
    ensures var times := AdmittedTimes(limit, window, run, key);
            |times| >= limit && forall i :: |times| - limit <= i < |times| ==> now - window < times[i] <= now
  {
    var all := run + [Request(key, now)];
    assert forall i :: 0 <= i < |run| ==> run[i] == all[i];
    assert all[|run|].now == now;
    assert forall i :: 0 <= i < |run| ==> all[i].now <= all[|run|].now;
    LogTimes(limit, window, run, key);
    RunIsWindowed(limit, window, run, key, now);
  }

  // ---- the bound is tight ----

  function Repeat(key: string, now: int, n: nat): seq<Request> { seq(n, _ => Request(key, now)) }

  /** As long as the window has room, one more request is admitted. */
  lemma RoomAdmitsOne(limit: int, window: int, run: seq<Request>, key: string, now: int)
    requires Current(window, CounterOf(RunCounters(limit, window, run), key), now).used < limit
    ensures var c := Current(window, CounterOf(RunCounters(limit, window, run), key), now);
            CounterOf(RunCounters(limit, window, run + [Request(key, now)]), key) == Counter(c.start, c.used + 1)
    ensures AdmittedTimes(limit, window, run + [Request(key, now)], key) ==
              AdmittedTimes(limit, window, run, key) + [now]
  {
    assert (run + [Request(key, now)])[..|run|] == run;
  }

  /** As long as the window has room, repeated requests are all admitted. */
  lemma {:induction false} RoomAdmits(limit: int, window: int, run: seq<Request>, key: string, now: int, n: nat,
                                      c: Counter)
    requires c == Current(window, CounterOf(RunCounters(limit, window, run), key), now)
    requires c.start != 0 && now - c.start < window && c.used + n <= limit
    ensures Current(window, CounterOf(RunCounters(limit, window, run + Repeat(key, now, n)), key), now) ==
              Counter(c.start, c.used + n)
    ensures AdmittedTimes(limit, window, run + Repeat(key, now, n), key) ==
              AdmittedTimes(limit, window, run, key) + seq(n, _ => now)
  {
    hide RunCounters, AdmittedTimes;
    if n == 0 {
      assert run + Repeat(key, now, n) == run;
      assert AdmittedTimes(limit, window, run, key) + seq(0, _ => now) == AdmittedTimes(limit, window, run, key);
    } else {
      var before := run + Repeat(key, now, n - 1);
      RoomAdmits(limit, window, run, key, now, n - 1, c);
      RoomAdmitsOne(limit, window, before, key, now);
      assert run + Repeat(key, now, n) == before + [Request(key, now)];
      assert seq(n, _ => now) == seq(n - 1, _ => now) + [now];
    }
  }

  lemma {:induction false} CountAppend(a: seq<int>, b: seq<int>, from: int, to: int)
    ensures CountIn(a + b, from, to) == CountIn(a, from, to) + CountIn(b, from, to)
  {
    if b == [] {
      assert a + b == a;
    } else {
      assert (a + b)[..|a + b| - 1] == a + b[..|b| - 1];
      CountAppend(a, b[..|b| - 1], from, to);
    }
  }

  lemma {:induction false} CountRepeated(t: int, n: nat, from: int, to: int)
    requires from <= t < to
    ensures CountIn(seq(n, _ => t), from, to) == n
  {
    if n > 0 {
      var s := seq(n, _ => t);
      assert s[..n - 1] == seq(n - 1, _ => t) && s[n - 1] == t;
      CountRepeated(t, n - 1, from, to);
    }
  }

  /** The extreme run: one request opens a window, the rest of its quota comes at its end, and a
      second quota right after it. */
  function Burst(limit: int, window: int, key: string): seq<Request>
    requires limit > 0
  {
    [Request(key, 1)] + Repeat(key, window, limit - 1) + Repeat(key, window + 1, limit)
  }

  lemma BurstIsAdmitted(limit: int, window: int, key: string)
    requires limit > 0 && window > 1
    ensures AdmittedTimes(limit, window, Burst(limit, window, key), key) ==
              [1] + seq(limit - 1, _ => window) + seq(limit, _ => window + 1)
  {
    var first := [Request(key, 1)];
    var second := first + Repeat(key, window, limit - 1);
    assert first == [] + [Request(key, 1)];
    RoomAdmitsOne(limit, window, [], key, 1);
    assert CounterOf(RunCounters(limit, window, first), key) == Counter(1, 1)
           && AdmittedTimes(limit, window, first, key) == [1];
    hide RunCounters, AdmittedTimes;
    RoomAdmits(limit, window, first, key, window, limit - 1, Counter(1, 1));
    assert CounterOf(RunCounters(limit, window, second), key) == Counter(1, limit);
    RoomAdmits(limit, window, second, key, window + 1, limit, Counter(window + 1, 0));
  }

  /** For every limit and window some run reaches the bound. */
  lemma BoundIsReached(limit: int, window: int, key: string)
    requires limit > 0 && window > 1
    ensures SteadyClock(Burst(limit, window, key))
    ensures CountIn(AdmittedTimes(limit, window, Burst(limit, window, key), key), 2, 2 + window) == 2 * limit - 1
  {
    hide AdmittedTimes, CountIn;
    BurstIsAdmitted(limit, window, key);
    var late, later := seq(limit - 1, _ => window), seq(limit, _ => window + 1);
    CountAppend([1] + late, later, 2, 2 + window);
    CountAppend([1], late, 2, 2 + window);
    CountRepeated(window, limit - 1, 2, 2 + window);
    CountRepeated(window + 1, limit, 2, 2 + window);
    OutsideInterval(window);
  }

  lemma OutsideInterval(window: int)
    ensures CountIn([1], 2, 2 + window) == 0
  {
    assert [1][..0] == [];
  }
}
