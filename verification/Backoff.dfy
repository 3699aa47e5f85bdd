/** The sync loop's exponential backoff, in 64-bit arithmetic. */
module Backoff {
  import opened Text

  /** `time.Duration`. */
  type Duration = d: int | -MAX_INT - 1 <= d <= MAX_INT

  datatype Options = Options(interval: Duration, initial: Duration, max: Duration)

  /** `normalizeSyncLoopOptions`. */
  function Normalize(o: Options): (r: Outcome<Options>)
    ensures r.Ok? ==> r.value.interval > 0 && 0 < r.value.initial <= r.value.max
    ensures r.Ok? ==> r.value.interval == o.interval
    ensures r.Ok? && o.initial > 0 ==> r.value.initial == o.initial
    ensures r.Ok? && o.max > 0 ==> r.value.max == o.max
    ensures r.Ok? && o.initial <= 0 ==> r.value.initial == o.interval
    ensures r.Ok? && o.max <= 0 && r.value.initial <= MAX_INT / 8 ==> r.value.max == 8 * r.value.initial
  {
    if o.interval <= 0 then Rejected
    else
      var initial := if o.initial <= 0 then o.interval else o.initial;
      var max := if o.max <= 0 then Wrap(initial as int * 8) else o.max;
      if max < initial then Rejected else Ok(Options(o.interval, initial, max))
  }

  /** Options are taken exactly when the interval is positive and the maximum, given or eight times the initial
      backoff in 64-bit arithmetic, is not below the initial backoff. */
  lemma NormalizeAccepts(o: Options)
    ensures var initial: int := if o.initial > 0 then o.initial else o.interval;
            Normalize(o).Ok? <==> o.interval > 0 && initial <= (if o.max > 0 then o.max else Wrap(8 * initial))
  {
  }

  /** A default maximum that overflows to a negative duration is refused. */
  lemma OverflowedDefaultIsRefused(o: Options)
    requires o.interval > 0 && o.initial == 0x1000_0000_0000_0000 && o.max <= 0
    ensures Normalize(o).Rejected?
  {
  }

  /** `nextSyncBackoff`: doubling may wrap around. */
  function Next(current: Duration, max: Duration): Duration {
    if current <= 0 then max
    else
      var next := Wrap(current as int * 2);
      if next < current || next > max then max else next
  }

  /** Even where doubling overflows, the next backoff is the doubled one capped at the maximum. */
  lemma NextDoubles(current: Duration, max: Duration)
    requires 0 < current <= max
    ensures Next(current, max) as int == Min(2 * current as int, max)
  {
    if current as int * 2 > MAX_INT {
      assert Wrap(current as int * 2) as int == current as int * 2 - 0x1_0000_0000_0000_0000;
    }
  }

  /** Consecutive failures immediately before sync `i`. */
  function Streak(succeeded: seq<bool>, i: nat): nat
    requires i <= |succeeded|
  {
    if i == 0 || succeeded[i - 1] then 0 else 1 + Streak(succeeded, i - 1)
  }

  /** The backoff in force at sync `i`. */
  function BackoffAt(o: Options, succeeded: seq<bool>, i: nat): int
    requires i <= |succeeded|
  {
    Min(o.initial as int * Pow2(Streak(succeeded, i)), o.max)
  }

  /** The delay after sync `i`. */
  function DelayAfter(o: Options, succeeded: seq<bool>, i: nat): int
    requires i < |succeeded|
  {
    if succeeded[i] then o.interval else BackoffAt(o, succeeded, i)
  }

  lemma CapThenDouble(x: int, max: int)
    requires x > 0 && max > 0
    ensures Min(2 * Min(x, max), max) == Min(2 * x, max)
  {
  }

  /** `initial <= backoff <= max` throughout. */
  lemma BackoffInRange(o: Options, succeeded: seq<bool>, i: nat)
    requires i <= |succeeded| && 0 < o.initial <= o.max
    ensures o.initial <= BackoffAt(o, succeeded, i) <= o.max
  {
    var n := Pow2(Streak(succeeded, i));
    assert o.initial as int * n >= o.initial as int by { ProductGrows(o.initial, n); }
  }

  lemma BackoffSteps(o: Options, succeeded: seq<bool>, i: nat)
    requires i < |succeeded| && 0 < o.initial <= o.max
    ensures o.initial <= BackoffAt(o, succeeded, i) <= o.max
    ensures BackoffAt(o, succeeded, i + 1) ==
              if succeeded[i] then o.initial else Next(BackoffAt(o, succeeded, i), o.max)
  {
    BackoffInRange(o, succeeded, i);
    if !succeeded[i] {
      var x, n := o.initial as int, Pow2(Streak(succeeded, i));
      assert Pow2(Streak(succeeded, i + 1)) == 2 * n;
      assert x * (2 * n) == 2 * (x * n) by { DoubleProduct(x, n); }
      ProductGrows(x, n);
      hide Next, Pow2;
      NextDoubles(BackoffAt(o, succeeded, i), o.max);
      CapThenDouble(x * n, o.max);
    }
  }

  lemma DoubleProduct(a: int, b: int)
    ensures a * (2 * b) == 2 * (a * b)
  {
  }

  /** `runSyncLoop` over syncs that succeed or fail as told: the delay after the (k+1)-th consecutive
      failure is `min(initial * 2^k, max)`, a success resets it and waits the plain interval, and the
      backoff never leaves `[initial, max]`. */
  method RunSyncLoop(options: Options, succeeded: seq<bool>) returns (r: Outcome<seq<Duration>>)
    ensures r.Ok? <==> Normalize(options).Ok?
    ensures r.Ok? ==> |r.value| == |succeeded|
    ensures r.Ok? ==> forall i :: 0 <= i < |succeeded| ==>
              r.value[i] as int == DelayAfter(Normalize(options).value, succeeded, i)
    ensures r.Ok? ==> var o := Normalize(options).value;
                      forall i :: 0 <= i < |succeeded| && !succeeded[i] ==> o.initial <= r.value[i] <= o.max
  {
    hide Next, BackoffAt;
    var normalized := Normalize(options);
    if normalized.Rejected? { return Rejected; }
    var o := normalized.value;
    var backoff := o.initial;
    var delays: seq<Duration> := [];
    assert BackoffAt(o, succeeded, 0) == o.initial as int by { FirstBackoff(o, succeeded); }
    for k := 0 to |succeeded|
      invariant |delays| == k && o.initial <= backoff <= o.max
      invariant backoff as int == BackoffAt(o, succeeded, k)
      invariant forall i :: 0 <= i < k ==> delays[i] as int == DelayAfter(o, succeeded, i)
      invariant forall i :: 0 <= i < k && !succeeded[i] ==> o.initial <= delays[i] <= o.max
    {
      BackoffSteps(o, succeeded, k);
      BackoffInRange(o, succeeded, k + 1);
      var delay := o.interval;
      if !succeeded[k] {
        delay := backoff;
        backoff := Next(backoff, o.max);
      } else {
        backoff := o.initial;
      }
      delays := delays + [delay];
    }
    return Ok(delays);
  }

  lemma FirstBackoff(o: Options, succeeded: seq<bool>)
    requires 0 < o.initial <= o.max
    ensures BackoffAt(o, succeeded, 0) == o.initial as int
  {
  }

  lemma ProductGrows(a: int, b: int)
    requires a > 0 && b > 0
    ensures a * b >= a && a * b > 0
  {
  }
}
