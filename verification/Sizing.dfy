/** The controller's view of an open-loop run: how many arrivals the run scheduled, and how many
    slots it would have needed. */
module Sizing {
  import opened Options
  import opened RateCurve

  // ---------------------------------------------------------------------------------------
  // Scheduled arrivals

  function FixedArrivals(targetRps: nat, d: real): real {
    targetRps as real * d
  }

  /** The arrivals an open-loop run of duration `d` scheduled; none for a run that is not open-loop.
      A curve takes precedence over a fixed rate, and an empty curve counts as no curve. */
  ghost function Scheduled(targetRps: Option<nat>, stages: Option<seq<Stage>>, d: real): Option<real> {
    if stages.Some? && stages.value != [] then Some(Lambda(stages.value)(if d > 0.0 then d else 0.0))
    else if targetRps.Some? then Some(FixedArrivals(targetRps.value, d))
    else None
  }

  /** Integrates the curve a second time, stage by stage, cut at the run's actual duration.  The
      controller's trapezoids and the engine's schedule measure the same area. */
  method ScheduledArrivals(targetRps: Option<nat>, stages: Option<seq<Stage>>, d: real) returns (r: Option<real>)
    ensures r == Scheduled(targetRps, stages, d)
  {
    if stages.Some? && stages.value != [] {
      var total := CurveArrivals(stages.value, d);
      return Some(total);
    }
    if targetRps.Some? {
      return Some(FixedArrivals(targetRps.value, d));
    }
    return None;
  }

  method CurveArrivals(stages: seq<Stage>, d: real) returns (total: real)
    requires stages != []
    ensures CutAt(stages, d, total)
  {
    hide StartTime, StartArea, StartRate, CutAt;
    var segStart, prev := 0.0, 0.0;
    total := 0.0;
    AtTheStart(stages);
    for i := 0 to |stages|
      invariant total == StartArea(stages, i) && segStart == StartTime(stages, i) && prev == StartRate(stages, i)
      invariant i > 0 ==> segStart <= d
    {
      var span := stages[i].duration as real;
      var target := stages[i].target as real;
      var segEnd := segStart + span;
      PastStage(stages, i);
      if d >= segEnd {
        total := total + (prev + target) / 2.0 * span;
      } else if d > segStart && span > 0.0 {
        var cut := CutStage(stages, i, prev, target, span, d - segStart);
        CutInStage(stages, i, d, cut);
        total := total + cut;
        return;
      } else {
        CutAtStart(stages, i, d);
        return;
      }
      segStart, prev := segEnd, target;
    }
    var extra := if d > segStart then prev * (d - segStart) else 0.0;
    CutAfterEnd(stages, d, extra);
    total := total + extra;
  }

  /** `total` is what the curve accumulates up to the run's end; before the start, nothing. */
  ghost predicate CutAt(stages: seq<Stage>, d: real, total: real) {
    Lambda(stages)(if d > 0.0 then d else 0.0) == total
  }

  lemma AtTheStart(stages: seq<Stage>)
    ensures StartTime(stages, 0) == 0.0 && StartRate(stages, 0) == 0.0 && StartArea(stages, 0) == 0.0
  {
  }

  lemma PastStage(stages: seq<Stage>, i: nat)
    requires i < |stages|
    ensures var span, target := stages[i].duration as real, stages[i].target as real;
            && StartTime(stages, i + 1) == StartTime(stages, i) + span
            && StartRate(stages, i + 1) == target
            && StartArea(stages, i + 1) == StartArea(stages, i) + (StartRate(stages, i) + target) / 2.0 * span
  {
  }

  lemma CutAtStart(stages: seq<Stage>, k: nat, d: real)
    requires k < |stages| && d <= StartTime(stages, k) && (k > 0 ==> StartTime(stages, k) <= d)
    ensures CutAt(stages, d, StartArea(stages, k))
  {
    LambdaSplit(stages, k, StartTime(stages, k));
    AreaAtZero(stages[k..], StartRate(stages, k));
  }

  lemma CutInStage(stages: seq<Stage>, k: nat, d: real, cut: real)
    requires k < |stages| && StartTime(stages, k) < d
    requires cut == Area(stages[k..], StartRate(stages, k), d - StartTime(stages, k))
    ensures CutAt(stages, d, StartArea(stages, k) + cut)
  {
    LambdaSplit(stages, k, d);
  }

  /** The part of a stage before the cut: the linear rate integrated up to the rate at the cut. */
  method CutStage(stages: seq<Stage>, ghost k: nat, prev: real, target: real, span: real, t: real) returns (cut: real)
    requires k < |stages| && 0.0 < t < span
    requires prev == StartRate(stages, k) && target == stages[k].target as real && span == stages[k].duration as real
    ensures cut == Area(stages[k..], StartRate(stages, k), t)
  {
    var rateAtT := prev + (target - prev) * (t / span);
    AreaIsTrapezoid(stages, k, t, rateAtT);
    return (prev + rateAtT) / 2.0 * t;
  }

  lemma AreaIsTrapezoid(stages: seq<Stage>, k: nat, t: real, rate: real)
    requires k < |stages| && 0.0 < t < stages[k].duration as real
    requires rate == StartRate(stages, k)
                     + (stages[k].target as real - StartRate(stages, k)) * (t / stages[k].duration as real)
    ensures Area(stages[k..], StartRate(stages, k), t) == (StartRate(stages, k) + rate) / 2.0 * t
  {
    TrapezoidIsRamp(StartRate(stages, k), stages[k].target as real, stages[k].duration as real, t, rate);
  }

  lemma TrapezoidIsRamp(r0: real, target: real, dur: real, t: real, rate: real)
    requires dur > 0.0 && rate == r0 + (target - r0) * (t / dur)
    ensures (r0 + rate) / 2.0 * t == r0 * t + (target - r0) / dur * t * t / 2.0
  {
    assert (target - r0) * (t / dur) == (target - r0) / dur * t;
  }

  lemma CutAfterEnd(stages: seq<Stage>, d: real, extra: real)
    requires stages != [] && d >= StartTime(stages, |stages|)
    requires var t, r := StartTime(stages, |stages|), StartRate(stages, |stages|);
             extra == if d > t then r * (d - t) else 0.0
    ensures CutAt(stages, d, StartArea(stages, |stages|) + extra)
  {
    hide StartTime, StartArea, StartRate;
    LambdaSplit(stages, |stages|, d);
  }

  /** A run never schedules more than its peak rate times its duration. */
  lemma ScheduledAtMostPeak(targetRps: Option<nat>, stages: Option<seq<Stage>>, d: real, peak: nat)
    requires d >= 0.0 && Scheduled(targetRps, stages, d).Some?
    requires targetRps.None? || stages.None? || stages.value == []
    requires Target(targetRps, stages) == Some(peak)
    ensures Scheduled(targetRps, stages, d).value <= peak as real * d
  {
    if stages.Some? && stages.value != [] {
      LambdaGrowth(stages.value, 0.0, d);
      AreaAtZero(stages.value, 0.0);
    }
  }

  /** A fixed rate is a curve that holds it from the start. */
  lemma FixedIsConstantCurve(rps: nat, d: real)
    requires d >= 0.0
    ensures Scheduled(Some(rps), None, d) == Scheduled(None, Some([Stage(0, rps)]), d)
    ensures Scheduled(Some(rps), None, d) == Some(Lambda([Stage(0, rps)])(d))
  {
    var stages := [Stage(0, rps)];
    assert stages[1..] == [];
    AreaFromCut(stages, 0.0, d);
    assert Lambda(stages)(d) == rps as real * d;
  }

  // ---------------------------------------------------------------------------------------
  // The recommendation

  /** The rate the advice aims at: the fixed rate, else the peak of a non-empty curve. */
  function Target(targetRps: Option<nat>, stages: Option<seq<Stage>>): Option<nat> {
    if targetRps.Some? then targetRps
    else if stages.Some? && stages.value != [] then Some(Peak(stages.value))
    else None
  }

  const SlotLimit: real := 10000.0

  function Ceil(x: real): int {
    -((-x).Floor)
  }

  /** Arrivals achieved per second, never negative; a run under one second counts as one second. */
  function Achieved(scheduled: real, dropped: nat, durationSeconds: int): real {
    var duration := (if durationSeconds > 1 then durationSeconds else 1) as real;
    var a := (scheduled - dropped as real) / duration;
    if a > 0.0 then a else 0.0
  }

  /** Slots needed if each slot stays busy: the target rate times the measured holding time. */
  function Required(target: nat, m: nat, achieved: real): real
    requires achieved >= 0.0
  {
    if achieved > 0.0 then Ceil(target as real * m as real / achieved) as real else SlotLimit
  }

  function Clamp(x: real): real {
    if x < 1.0 then 1.0 else if x > SlotLimit then SlotLimit else x
  }

  datatype Cause = Sut | Slots

  datatype Advice = Advice(count: nat, targetPerSec: Option<nat>, achievedPerSec: Option<real>,
                           cause: Option<Cause>, recommended: Option<real>)

  ghost predicate IsLargestTarget(stages: seq<Stage>, rate: nat) {
    (forall i :: 0 <= i < |stages| ==> stages[i].target <= rate)
    && exists i :: 0 <= i < |stages| && stages[i].target == rate
  }

  /** The saturation advice; present exactly when arrivals were dropped.  A server under stress
      (`stressed`) is blamed before the slot pool, and then no slot count is recommended. */
  method LoadGenSaturated(dropped: nat, targetRps: Option<nat>, stages: Option<seq<Stage>>, maxInFlight: Option<nat>,
                          durationSeconds: int, stressed: bool)
    returns (r: Option<Advice>)
    ensures r.Some? <==> dropped > 0
    ensures r.Some? ==> r.value.count == dropped
    ensures r.Some? ==>
              var full := Target(targetRps, stages).Some? && maxInFlight.Some?;
              && (r.value.cause == if !full then None else Some(if stressed then Sut else Slots))
              && (r.value.recommended.Some? <==> full && !stressed)
    ensures r.Some? && Target(targetRps, stages).Some? && maxInFlight.Some? ==>
              var achieved := Achieved(Scheduled(targetRps, stages, durationSeconds as real).value, dropped,
                                       durationSeconds);
              && r.value.targetPerSec == Target(targetRps, stages) && r.value.achievedPerSec == Some(achieved)
              && (!stressed ==>
                    r.value.recommended
                    == Some(Clamp(Required(Target(targetRps, stages).value, maxInFlight.value, achieved))))
    ensures r.Some? && r.value.targetPerSec.Some? ==>
              if targetRps.Some? then r.value.targetPerSec == targetRps
              else stages.Some? && IsLargestTarget(stages.value, r.value.targetPerSec.value)
    // the advice never recommends fewer slots than one more than the run had, up to the limit
    ensures r.Some? && r.value.recommended.Some? && (targetRps.None? || stages.None? || stages.value == []) ==>
              var more := (maxInFlight.value + 1) as real;
              r.value.recommended.value >= if more < SlotLimit then more else SlotLimit
  {
    if dropped == 0 {
      return None;
    }
    var scheduled := ScheduledArrivals(targetRps, stages, durationSeconds as real);
    var target := Target(targetRps, stages);
    if stages.Some? {
      PeakIsLargest(stages.value);
    }
    if target.None? || maxInFlight.None? || scheduled.None? {
      return Some(Advice(dropped, None, None, None, None));
    }
    var achieved := Achieved(scheduled.value, dropped, durationSeconds);
    if stressed {
      return Some(Advice(dropped, target, Some(achieved), Some(Sut), None));
    }
    var required := Required(target.value, maxInFlight.value, achieved);
    if targetRps.None? || stages.None? || stages.value == [] {
      DroppedMeansShort(targetRps, stages, durationSeconds, dropped, target.value);
      RequiredExceeds(target.value, maxInFlight.value, achieved);
    }
    return Some(Advice(dropped, target, Some(achieved), Some(Slots), Some(Clamp(required))));
  }

  /** A run that dropped arrivals achieved strictly less than its target rate, or nothing at all. */
  lemma DroppedMeansShort(targetRps: Option<nat>, stages: Option<seq<Stage>>, durationSeconds: int, dropped: nat,
                          target: nat)
    requires targetRps.None? || stages.None? || stages.value == []
    requires dropped > 0 && Target(targetRps, stages) == Some(target)
    ensures Scheduled(targetRps, stages, durationSeconds as real).Some?
    ensures var achieved := Achieved(Scheduled(targetRps, stages, durationSeconds as real).value, dropped,
                                     durationSeconds);
            achieved == 0.0 || achieved < target as real
  {
    var d := durationSeconds as real;
    assert Scheduled(targetRps, stages, d).Some?;
    hide Scheduled, Target, Achieved;
    var scheduled := Scheduled(targetRps, stages, d).value;
    if durationSeconds >= 0 {
      ScheduledAtMostPeak(targetRps, stages, d, target);
    } else {
      NothingBeforeStart(targetRps, stages, d);
    }
    AchievedBelow(scheduled, dropped, durationSeconds, target);
  }

  lemma AchievedBelow(scheduled: real, dropped: nat, durationSeconds: int, target: nat)
    requires dropped > 0
    requires if durationSeconds >= 0 then scheduled <= target as real * durationSeconds as real else scheduled <= 0.0
    ensures var achieved := Achieved(scheduled, dropped, durationSeconds); achieved == 0.0 || achieved < target as real
  {
    var duration := (if durationSeconds > 1 then durationSeconds else 1) as real;
    Widen(target as real, if durationSeconds >= 0 then durationSeconds as real else 0.0, duration);
    QuotientBelow(scheduled - dropped as real, target as real, duration);
  }

  lemma Widen(t: real, d: real, duration: real)
    requires t >= 0.0 && d <= duration
    ensures t * d <= t * duration
  {
  }

  lemma NothingBeforeStart(targetRps: Option<nat>, stages: Option<seq<Stage>>, d: real)
    requires d < 0.0 && Scheduled(targetRps, stages, d).Some?
    ensures Scheduled(targetRps, stages, d).value <= 0.0
  {
    if stages.Some? && stages.value != [] {
      AreaAtZero(stages.value, 0.0);
    } else {
      Widen(targetRps.value as real, d, 0.0);
    }
  }

  lemma QuotientBelow(x: real, y: real, d: real)
    requires d > 0.0 && x < y * d
    ensures x / d < y
  {
    assert x == x / d * d;
  }

  /** The unclamped recommendation exceeds the present pool exactly when the target rate exceeds
      what was achieved, or nothing was achieved and the pool is below the limit. */
  lemma RequiredExceeds(target: nat, m: nat, achieved: real)
    requires achieved >= 0.0
    ensures achieved > 0.0 && m > 0 ==> (Required(target, m, achieved) > m as real <==> target as real > achieved)
    ensures achieved == 0.0 ==> (Required(target, m, achieved) > m as real <==> m < 10000)
    ensures achieved == 0.0 || achieved < target as real ==>
              var more := (m + 1) as real;
              Clamp(Required(target, m, achieved)) >= if more < SlotLimit then more else SlotLimit
  {
    hide Clamp, Ceil;
    ClampAtLeast(Required(target, m, achieved), m + 1);
    if achieved > 0.0 {
      var q := target as real * m as real / achieved;
      CeilExceeds(q, m);
      if m > 0 {
        QuotientExceeds(target as real, m as real, achieved);
      }
    }
  }

  lemma ClampAtLeast(x: real, more: nat)
    ensures x >= more as real || x >= SlotLimit || more <= 1 ==>
              Clamp(x) >= if more as real < SlotLimit then more as real else SlotLimit
  {
  }

  lemma CeilExceeds(x: real, n: int)
    ensures Ceil(x) > n <==> x > n as real
  {
  }

  lemma QuotientExceeds(t: real, m: real, a: real)
    requires a > 0.0 && m > 0.0
    ensures t * m / a > m <==> t > a
  {
    var q := t * m / a;
    assert q * a == t * m;
    assert (q - m) * a == (t - a) * m;
    if t > a {
      assert (t - a) * m > 0.0;
    } else {
      assert (t - a) * m <= 0.0;
    }
  }

  /** The unclamped recommendation is the least number of slots that reaches the target rate if every slot
      achieves what one of the `m` slots has achieved; if nothing was achieved it is the limit. */
  lemma RequiredIsLeast(target: nat, m: nat, scheduled: real, dropped: nat, durationSeconds: int)
    ensures var duration := (if durationSeconds > 1 then durationSeconds else 1) as real;
            var gap, n := scheduled - dropped as real, Required(target, m, Achieved(scheduled, dropped,
                                                                                     durationSeconds));
            && n.Floor as real == n
            && if gap > 0.0 then (n - 1.0) * gap < target as real * m as real * duration <= n * gap else n == 10000.0
  {
    var duration := (if durationSeconds > 1 then durationSeconds else 1) as real;
    var gap := scheduled - dropped as real;
    QuotientSign(gap, duration);
    if gap > 0.0 {
      var need, achieved := target as real * m as real, gap / duration;
      var q := need / achieved;
      var n := Ceil(q);
      CeilExceeds(q, n - 1);
      CeilExceeds(q, n);
      QuotientAtMost(need, gap, duration, n as real);
      QuotientAtMost(need, gap, duration, (n - 1) as real);
    }
  }

  /** The clamped recommendation is below the present pool exactly when the pool is above the limit,
      or the target, served by the pool, is at most what one slot less achieved. */
  lemma RecommendedBelowPoolIff(target: nat, m: nat, scheduled: real, dropped: nat, durationSeconds: int)
    ensures var duration := (if durationSeconds > 1 then durationSeconds else 1) as real;
            Clamp(Required(target, m, Achieved(scheduled, dropped, durationSeconds))) < m as real
            <==> || m > 10000
                 || (m > 1 && scheduled > dropped as real
                     && target as real * m as real * duration <= (m - 1) as real * (scheduled - dropped as real))
  {
    hide Required;
    var duration := (if durationSeconds > 1 then durationSeconds else 1) as real;
    var achieved, gap := Achieved(scheduled, dropped, durationSeconds), scheduled - dropped as real;
    QuotientSign(gap, duration);
    if gap > 0.0 {
      RequiredBelow(target, m, gap, duration);
    } else {
      RequiredOfNothing(target, m);
    }
  }

  lemma QuotientSign(x: real, d: real)
    requires d > 0.0
    ensures x / d > 0.0 <==> x > 0.0
  {
    assert x == x / d * d;
  }

  lemma RequiredOfNothing(target: nat, m: nat)
    ensures Required(target, m, 0.0) == SlotLimit
  {
  }

  /** The unclamped recommendation is below the pool exactly when one slot less would do. */
  lemma RequiredBelow(target: nat, m: nat, gap: real, duration: real)
    requires gap > 0.0 && duration > 0.0
    ensures gap / duration > 0.0
    ensures Required(target, m, gap / duration) < m as real
            <==> target as real * m as real * duration <= (m - 1) as real * gap
  {
    QuotientSign(gap, duration);
    var need, achieved := target as real * m as real, gap / duration;
    var q := need / achieved;
    CeilExceeds(q, m - 1);
    assert Ceil(q) < m <==> q <= (m - 1) as real;
    QuotientAtMost(need, gap, duration, (m - 1) as real);
  }

  lemma QuotientAtMost(need: real, gap: real, duration: real, bound: real)
    requires gap > 0.0 && duration > 0.0 && gap / duration > 0.0
    ensures need / (gap / duration) <= bound <==> need * duration <= bound * gap
  {
    var a := gap / duration;
    var q := need / a;
    assert a * duration == gap && q * a == need;
    assert need * duration == q * gap by {
      assert q * a * duration == q * (a * duration);
    }
    if q <= bound {
      assert (bound - q) * gap >= 0.0;
    } else {
      assert (q - bound) * gap > 0.0;
    }
  }
}
