/**
  The arithmetic of the circuit breaker (internal/logwatch/watcher.go): what the
  pruned list of fire times says about the full history of a rule's fires.
  Times are nanoseconds on a clock that never goes back.
  */
module FireWindow {
  import opened LogRules

  const MAX_RESTARTS := 5
  const BREAKER_WINDOW := 600 * SECOND

  /** The times strictly after the cutoff, in order: what pruneOld keeps. */
  function After(times: seq<int>, cutoff: int): (kept: seq<int>)
    ensures |kept| <= |times|
    ensures forall t :: t in kept <==> t in times && t > cutoff
  {
    if times == [] then []
    else
      var kept := After(times[..|times| - 1], cutoff);
      var last := times[|times| - 1];
      if last > cutoff then kept + [last] else kept
  }

  predicate NonDecreasing(times: seq<int>) {
    forall j, k :: 0 <= j < k < |times| ==> times[j] <= times[k]
  }

  /** Any two fires are at least `gap` apart. */
  predicate Spaced(times: seq<int>, gap: int) {
    forall j, k :: 0 <= j < k < |times| ==> times[k] - times[j] >= gap
  }

  /** Pruning twice with later and later cutoffs is pruning once. */
  lemma {:induction false} AfterTwice(times: seq<int>, early: int, late: int)
    requires early <= late
    ensures After(After(times, early), late) == After(times, late)
  {
    if times != [] {
      var rest, last := times[..|times| - 1], times[|times| - 1];
      AfterTwice(rest, early, late);
      if last > early {
        assert (After(rest, early) + [last])[..|After(rest, early)|] == After(rest, early);
      }
    }
  }

  lemma AfterSnoc(times: seq<int>, t: int, cutoff: int)
    ensures After(times + [t], cutoff) == After(times, cutoff) + if t > cutoff then [t] else []
  {
    assert (times + [t])[..|times|] == times;
  }

  /** The fire at index `k` of the history trips the breaker: more than five in the ten minutes ending there. */
  predicate TripsAt(history: seq<int>, k: nat)
    requires k < |history|
  {
    |After(history[..k + 1], history[k] - BREAKER_WINDOW)| > MAX_RESTARTS
  }

  predicate NeverTripped(history: seq<int>) {
    forall k :: 0 <= k < |history| ==> !TripsAt(history, k)
  }

  /** How many fires fall into lo <= t < hi. */
  function Count(times: seq<int>, lo: int, hi: int): nat {
    if times == [] then 0
    else
      var last := times[|times| - 1];
      Count(times[..|times| - 1], lo, hi) + if lo <= last < hi then 1 else 0
  }

  lemma {:induction false} CountAfter(times: seq<int>, lo: int, hi: int, cutoff: int)
    requires cutoff < lo
    ensures Count(times, lo, hi) <= |After(times, cutoff)|
  {
    if times != [] { CountAfter(times[..|times| - 1], lo, hi, cutoff); }
  }

  lemma {:induction false} CountOfAfter(times: seq<int>, cutoff: int, hi: int)
    requires forall k :: 0 <= k < |times| ==> times[k] < hi
    ensures Count(times, cutoff + 1, hi) == |After(times, cutoff)|
  {
    if times != [] { CountOfAfter(times[..|times| - 1], cutoff, hi); }
  }

  /** A fire trips the breaker exactly when it is at least the sixth in the ten minutes up to it. */
  lemma TripMeansSixFires(history: seq<int>, k: nat)
    requires NonDecreasing(history) && k < |history|
    ensures TripsAt(history, k) <==> Count(history[..k + 1], history[k] - BREAKER_WINDOW + 1, history[k] + 1) >= 6
  {
    CountOfAfter(history[..k + 1], history[k] - BREAKER_WINDOW, history[k] + 1);
  }

  lemma {:induction false} CountNone(times: seq<int>, lo: int, hi: int)
    requires forall k :: 0 <= k < |times| ==> !(lo <= times[k] < hi)
    ensures Count(times, lo, hi) == 0
  {
    if times != [] { CountNone(times[..|times| - 1], lo, hi); }
  }

  lemma PrefixNeverTripped(history: seq<int>)
    requires history != [] && NonDecreasing(history) && NeverTripped(history)
    ensures NonDecreasing(history[..|history| - 1]) && NeverTripped(history[..|history| - 1])
  {
    var rest := history[..|history| - 1];
    forall k | 0 <= k < |rest| ensures !TripsAt(rest, k) {
      assert rest[..k + 1] == history[..k + 1];
      assert !TripsAt(history, k);
    }
  }

  lemma NeverTrippedSnoc(history: seq<int>, now: int)
    requires NeverTripped(history) && !TripsAt(history + [now], |history|)
    ensures NeverTripped(history + [now])
  {
    forall k | 0 <= k < |history| ensures !TripsAt(history + [now], k) {
      assert (history + [now])[..k + 1] == history[..k + 1];
      assert !TripsAt(history, k);
    }
  }

  /**
    Rate bound on every window: until the breaker trips, each half-open ten-minute
    interval of the time line, wherever it starts, holds at most five fires.
    */
  lemma {:induction false} RateBound(history: seq<int>, from: int)
    requires NonDecreasing(history) && NeverTripped(history)
    ensures Count(history, from, from + BREAKER_WINDOW) <= MAX_RESTARTS
  {
    if history != [] {
      var n := |history| - 1;
      if from <= history[n] < from + BREAKER_WINDOW {
        assert history[..n + 1] == history;
        assert !TripsAt(history, n);
        CountAfter(history, from, from + BREAKER_WINDOW, history[n] - BREAKER_WINDOW);
      } else {
        PrefixNeverTripped(history);
        RateBound(history[..n], from);
      }
    }
  }

  lemma {:induction false} CountSplit(times: seq<int>, lo: int, mid: int, hi: int)
    requires lo <= mid <= hi
    ensures Count(times, lo, hi) == Count(times, lo, mid) + Count(times, mid, hi)
  {
    if times != [] { CountSplit(times[..|times| - 1], lo, mid, hi); }
  }

  lemma {:induction false} CountWiden(times: seq<int>, lo: int, hi: int, hi': int)
    requires hi <= hi'
    ensures Count(times, lo, hi) <= Count(times, lo, hi')
  {
    if times != [] { CountWiden(times[..|times| - 1], lo, hi, hi'); }
  }

  function CeilDiv(a: nat, b: nat): nat
    requires b > 0
  {
    (a + b - 1) / b
  }

  /** Over any span, at most five fires per ten minutes begun. */
  lemma {:induction false} SpanBound(history: seq<int>, from: int, span: nat)
    requires NonDecreasing(history) && NeverTripped(history)
    ensures Count(history, from, from + span) <= MAX_RESTARTS * CeilDiv(span, BREAKER_WINDOW)
    decreases span
  {
    if span == 0 {
      CountNone(history, from, from);
    } else {
      RateBound(history, from);
      if span <= BREAKER_WINDOW {
        CountWiden(history, from, from + span, from + BREAKER_WINDOW);
      } else {
        SpanBound(history, from + BREAKER_WINDOW, span - BREAKER_WINDOW);
        CountSplit(history, from, from + BREAKER_WINDOW, from + span);
        assert CeilDiv(span, BREAKER_WINDOW) == CeilDiv(span - BREAKER_WINDOW, BREAKER_WINDOW) + 1;
      }
    }
  }

  // ---------- What the cooldown adds ----------

  lemma {:induction false} AfterKeepsSpacing(times: seq<int>, gap: int, cutoff: int)
    requires Spaced(times, gap)
    ensures Spaced(After(times, cutoff), gap)
  {
    if times != [] {
      var rest, last := times[..|times| - 1], times[|times| - 1];
      AfterKeepsSpacing(rest, gap, cutoff);
      var kept := After(rest, cutoff);
      forall j | 0 <= j < |kept| ensures last - kept[j] >= gap {
        assert kept[j] in kept;
        assert kept[j] in rest;
      }
    }
  }

  lemma {:induction false} SpacedExtent(times: seq<int>, gap: int)
    requires gap >= 0 && times != [] && Spaced(times, gap)
    ensures times[|times| - 1] - times[0] >= (|times| - 1) * gap
  {
    if |times| > 1 {
      SpacedExtent(times[..|times| - 1], gap);
      assert times[|times| - 1] - times[|times| - 2] >= gap;
    }
  }

  /** With a cooldown of `gap`, a ten-minute window holds at most ceil(window / gap) fires. */
  lemma CooldownBound(history: seq<int>, k: nat, gap: nat)
    requires gap > 0 && k < |history| && NonDecreasing(history) && Spaced(history, gap)
    ensures |After(history[..k + 1], history[k] - BREAKER_WINDOW)| <= CeilDiv(BREAKER_WINDOW, gap)
  {
    var kept := After(history[..k + 1], history[k] - BREAKER_WINDOW);
    AfterKeepsSpacing(history[..k + 1], gap, history[k] - BREAKER_WINDOW);
    if kept != [] {
      SpacedExtent(kept, gap);
      assert kept[0] in kept && kept[|kept| - 1] in kept;
      assert kept[|kept| - 1] <= history[k] && kept[0] > history[k] - BREAKER_WINDOW;
      AtMost(|kept|, gap, BREAKER_WINDOW);
    }
  }

  /** Wherever it starts, a ten-minute interval of the time line holds no more. */
  lemma {:induction false} CooldownRate(history: seq<int>, from: int, gap: nat)
    requires gap > 0 && NonDecreasing(history) && Spaced(history, gap)
    ensures Count(history, from, from + BREAKER_WINDOW) <= CeilDiv(BREAKER_WINDOW, gap)
  {
    if history != [] {
      var n := |history| - 1;
      if from <= history[n] < from + BREAKER_WINDOW {
        assert history[..n + 1] == history;
        CooldownBound(history, n, gap);
        CountAfter(history, from, from + BREAKER_WINDOW, history[n] - BREAKER_WINDOW);
      } else {
        CooldownRate(history[..n], from, gap);
      }
    }
  }

  lemma AtMost(n: nat, gap: nat, length: nat)
    requires gap > 0 && n > 0 && (n - 1) * gap < length
    ensures n <= CeilDiv(length, gap)
  {
    var q := CeilDiv(length, gap);
    assert q * gap >= length;
    SmallerFactor(n - 1, q, gap);
  }

  lemma SmallerFactor(a: int, b: int, factor: nat)
    requires a * factor < b * factor
    ensures a < b
  {
    if a >= b { MulMonotone(b, a, factor); }
  }

  lemma MulMonotone(a: int, b: int, factor: nat)
    requires a <= b
    ensures a * factor <= b * factor
  {
  }

  /** Fires exactly `gap` apart, the fastest the cooldown allows. */
  function Fastest(n: nat, gap: nat): seq<int> {
    seq(n, k requires 0 <= k < n => k * gap)
  }

  /**
    The breaker of a rule can trip exactly when its cooldown is shorter than two
    minutes: from there on no history of fires the cooldown allows ever trips.
    */
  lemma BreakerReachable(cooldown: int)
    ensures cooldown >= 120 * SECOND <==>
      forall h :: NonDecreasing(h) && Spaced(h, cooldown) ==> NeverTripped(h)
  {
    if cooldown >= 120 * SECOND {
      forall h | NonDecreasing(h) && Spaced(h, cooldown) ensures NeverTripped(h) {
        CooldownForbidsTrips(h, cooldown);
      }
    } else {
      FastestTrips(if cooldown > 0 then cooldown else 1);
      var h :| NonDecreasing(h) && Spaced(h, if cooldown > 0 then cooldown else 1) && !NeverTripped(h);
      assert Spaced(h, cooldown);
    }
  }

  lemma CooldownForbidsTrips(h: seq<int>, cooldown: int)
    requires cooldown >= 120 * SECOND && NonDecreasing(h) && Spaced(h, cooldown)
    ensures NeverTripped(h)
  {
    forall k | 0 <= k < |h| ensures !TripsAt(h, k) {
      CooldownBound(h, k, cooldown);
      FiveAtMost(cooldown);
    }
  }

  /** In seconds: a configured cooldown makes the breaker unreachable exactly from 120 up. */
  lemma BreakerReachableBySeconds(cooldownSec: int)
    requires cooldownSec <= MAX_SECONDS
    ensures cooldownSec >= 120 <==>
      forall h :: NonDecreasing(h) && Spaced(h, Cooldown(cooldownSec)) ==> NeverTripped(h)
  {
    CooldownMeaning(cooldownSec);
    BreakerReachable(Cooldown(cooldownSec));
  }

  lemma FiveAtMost(gap: nat)
    requires gap >= 120 * SECOND
    ensures CeilDiv(BREAKER_WINDOW, gap) <= MAX_RESTARTS
  {
    var q := CeilDiv(BREAKER_WINDOW, gap);
    assert q * gap <= BREAKER_WINDOW + gap - 1;
    SmallerFactor(q, MAX_RESTARTS + 1, gap);
  }

  lemma FastestTrips(gap: nat)
    requires 0 < gap < 120 * SECOND
    ensures exists h :: NonDecreasing(h) && Spaced(h, gap) && !NeverTripped(h)
  {
    var h := Fastest(6, gap);
    FastestIsSpaced(6, gap);
    AllAfter(h[..6], h[5] - BREAKER_WINDOW);
    assert TripsAt(h, 5);
  }

  lemma FastestIsSpaced(n: nat, gap: nat)
    ensures NonDecreasing(Fastest(n, gap)) && Spaced(Fastest(n, gap), gap)
  {
    forall j, k | 0 <= j < k < n ensures k * gap - j * gap >= gap {
      MulMonotone(j + 1, k, gap);
    }
  }

  lemma {:induction false} AllAfter(times: seq<int>, cutoff: int)
    requires forall k :: 0 <= k < |times| ==> times[k] > cutoff
    ensures After(times, cutoff) == times
  {
    if times != [] { AllAfter(times[..|times| - 1], cutoff); }
  }
}
