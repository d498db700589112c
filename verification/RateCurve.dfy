/** The piecewise-linear rate curve of an open-loop run and its cumulative arrival curve.

    A stage list describes a rate that starts at 0 and ramps linearly to each stage's target
    over that stage's duration; past the last stage the last target is held.  `f64` is modelled
    by `real`: rounding is not part of this model.
 */
module RateCurve {
  import opened Integrals

  /** One stage of a curve.  Both fields are unsigned 32-bit in the source; the curve only widens
      them to floating point, so no wrap-around can occur. */
  datatype Stage = Stage(duration: nat, target: nat)

  /** The rate at `x` seconds after a point where the rate is `r0` and `stages` lie ahead. */
  function Rate(stages: seq<Stage>, r0: real, x: real): real {
    if stages == [] then r0
    else
      var dur, target := stages[0].duration as real, stages[0].target as real;
      if x > dur then Rate(stages[1..], target, x - dur)
      else if dur <= 0.0 then target
      else r0 + x / dur * (target - r0)
  }

  /** The instantaneous rate, found by walking the stages with absolute segment bounds. */
  method RateAt(stages: seq<Stage>, elapsed: real) returns (rate: real)
    ensures rate == Rate(stages, 0.0, elapsed)
  {
    var segStart, prev := 0.0, 0.0;
    for i := 0 to |stages|
      invariant Rate(stages, 0.0, elapsed) == Rate(stages[i..], prev, elapsed - segStart)
    {
      var segEnd := segStart + stages[i].duration as real;
      var target := stages[i].target as real;
      assert stages[i..][0] == stages[i] && stages[i..][1..] == stages[i + 1..];
      if elapsed <= segEnd {
        var span := segEnd - segStart;
        if span <= 0.0 {
          return target;
        }
        var frac := (elapsed - segStart) / span;
        return prev + frac * (target - prev);
      }
      assert elapsed - segStart - stages[i].duration as real == elapsed - segEnd;
      segStart, prev := segEnd, target;
    }
    return prev;
  }

  /** The arrivals accumulated over the `x` seconds after a point where the rate is `r0`. */
  function Area(stages: seq<Stage>, r0: real, x: real): real {
    if stages == [] then r0 * x
    else
      var dur, target := stages[0].duration as real, stages[0].target as real;
      if x > dur then (r0 + target) / 2.0 * dur + Area(stages[1..], target, x - dur)
      else if dur <= 0.0 then 0.0
      else r0 * x + (target - r0) / dur * x * x / 2.0
  }

  /** The rate at each moment after a point where the rate is `r0` and `stages` lie ahead. */
  function RateFrom(stages: seq<Stage>, r0: real): real -> real {
    t => Rate(stages, r0, t)
  }

  /** The rate of a run, which starts at 0, at each moment. */
  function RateOf(stages: seq<Stage>): real -> real {
    RateFrom(stages, 0.0)
  }

  /** The cumulative arrival curve: arrivals scheduled in the first `t` seconds of the run. */
  function Lambda(stages: seq<Stage>): real -> real {
    t => Area(stages, 0.0, t)
  }

  function Peak(stages: seq<Stage>): nat {
    if stages == [] then 0
    else if stages[0].target > Peak(stages[1..]) then stages[0].target
    else Peak(stages[1..])
  }

  // ---------------------------------------------------------------------------------------
  // Lambda is the integral of the rate

  lemma AreaAtZero(stages: seq<Stage>, r0: real)
    ensures Area(stages, r0, 0.0) == 0.0
  {
  }

  /** Rate and area of one linear piece. */
  function PieceRate(r0: real, slope: real, x: real): real {
    r0 + x * slope
  }

  function PieceArea(r0: real, slope: real, x: real): real {
    r0 * x + slope * x * x / 2.0
  }

  /** Inside one linear piece, the area is the width times the rate at the midpoint. */
  lemma MidpointRule(r0: real, slope: real, a: real, b: real)
    ensures PieceArea(r0, slope, b) - PieceArea(r0, slope, a) == (b - a) * PieceRate(r0, slope, (a + b) / 2.0)
  {
    assert slope * b * b - slope * a * a == slope * ((b - a) * (b + a));
  }

  lemma FirstPiece(stages: seq<Stage>, r0: real, slope: real, x: real)
    requires stages != [] && 0.0 <= x <= stages[0].duration as real && stages[0].duration > 0
    requires slope == (stages[0].target as real - r0) / stages[0].duration as real
    ensures Area(stages, r0, x) == PieceArea(r0, slope, x)
    ensures Rate(stages, r0, x) == PieceRate(r0, slope, x)
  {
    SwapQuotient(x, stages[0].duration as real, stages[0].target as real - r0);
  }

  lemma SwapQuotient(x: real, dur: real, y: real)
    requires dur > 0.0
    ensures x / dur * y == x * (y / dur)
  {
  }

  lemma FirstPieceBounds(stages: seq<Stage>, r0: real, a: real, b: real, lo: real, hi: real)
    requires stages != [] && 0.0 <= a < b <= stages[0].duration as real
    requires Within(RateFrom(stages, r0), a, b, lo, hi)
    ensures Between(lo, hi, b - a, Area(stages, r0, b) - Area(stages, r0, a))
  {
    hide Area, Rate, PieceRate, PieceArea;
    var slope, mid := (stages[0].target as real - r0) / stages[0].duration as real, (a + b) / 2.0;
    FirstPiece(stages, r0, slope, a);
    FirstPiece(stages, r0, slope, b);
    FirstPiece(stages, r0, slope, mid);
    MidpointRule(r0, slope, a, b);
    var rate := Rate(stages, r0, mid);
    assert lo <= RateFrom(stages, r0)(mid) <= hi;
    assert Area(stages, r0, b) - Area(stages, r0, a) == (b - a) * rate;
    ScaleBounds(b - a, lo, rate, hi);
  }

  lemma ShiftedWithin(stages: seq<Stage>, r0: real, a: real, b: real, lo: real, hi: real)
    requires stages != [] && stages[0].duration as real <= a
    requires Within(RateFrom(stages, r0), a, b, lo, hi)
    ensures var dur, target := stages[0].duration as real, stages[0].target as real;
            Within(RateFrom(stages[1..], target), a - dur, b - dur, lo, hi)
  {
    var dur, target := stages[0].duration as real, stages[0].target as real;
    forall s | a - dur < s <= b - dur
      ensures lo <= RateFrom(stages[1..], target)(s) <= hi
    {
      assert RateFrom(stages, r0)(s + dur) == Rate(stages[1..], target, s);
    }
  }

  /** On every interval the area lies between the interval's width times any bounds of the rate:
      the defining property of the integral. */
  lemma {:induction false} AreaBounds(stages: seq<Stage>, r0: real, a: real, b: real, lo: real, hi: real)
    requires 0.0 <= a <= b
    requires Within(RateFrom(stages, r0), a, b, lo, hi)
    ensures Between(lo, hi, b - a, Area(stages, r0, b) - Area(stages, r0, a))
    decreases |stages|, 1
  {
    if a == b {
    } else if stages == [] {
      assert lo <= RateFrom(stages, r0)(b) <= hi;
      ScaleBounds(b - a, lo, r0, hi);
      assert r0 * b - r0 * a == (b - a) * r0;
    } else if b <= stages[0].duration as real {
      FirstPieceBounds(stages, r0, a, b, lo, hi);
    } else if a < stages[0].duration as real {
      var dur := stages[0].duration as real;
      FirstPieceBounds(stages, r0, a, dur, lo, hi);
      LaterPieceBounds(stages, r0, dur, b, lo, hi);
      GlueBounds(a, dur, b, lo, hi, Area(stages, r0, dur) - Area(stages, r0, a),
                 Area(stages, r0, b) - Area(stages, r0, dur));
    } else {
      LaterPieceBounds(stages, r0, a, b, lo, hi);
    }
  }

  lemma {:induction false} LaterPieceBounds(stages: seq<Stage>, r0: real, a: real, b: real, lo: real, hi: real)
    requires stages != [] && stages[0].duration as real <= a <= b
    requires Within(RateFrom(stages, r0), a, b, lo, hi)
    ensures Between(lo, hi, b - a, Area(stages, r0, b) - Area(stages, r0, a))
    decreases |stages|, 0
  {
    var dur, target := stages[0].duration as real, stages[0].target as real;
    ShiftedWithin(stages, r0, a, b, lo, hi);
    AreaBounds(stages[1..], target, a - dur, b - dur, lo, hi);
    AreaFromCut(stages, r0, a);
    AreaFromCut(stages, r0, b);
    assert (b - dur) - (a - dur) == b - a;
  }

  /** At the end of the first stage the two cases of `Area` agree. */
  lemma AreaFromCut(stages: seq<Stage>, r0: real, x: real)
    requires stages != [] && x >= stages[0].duration as real
    ensures var dur, target := stages[0].duration as real, stages[0].target as real;
            Area(stages, r0, x) == (r0 + target) / 2.0 * dur + Area(stages[1..], target, x - dur)
  {
    var dur, target := stages[0].duration as real, stages[0].target as real;
    if x == dur {
      AreaAtZero(stages[1..], target);
      if dur > 0.0 {
        assert (target - r0) / dur * x == target - r0;
      }
    }
  }

  /** `Lambda` accumulates the rate of the run. */
  lemma LambdaAccumulates(stages: seq<Stage>)
    ensures Accumulates(Lambda(stages), RateOf(stages))
  {
    AreaAtZero(stages, 0.0);
    forall a, b, lo, hi | 0.0 <= a <= b && Within(RateOf(stages), a, b, lo, hi)
      ensures Between(lo, hi, b - a, Lambda(stages)(b) - Lambda(stages)(a))
    {
      AreaBounds(stages, 0.0, a, b, lo, hi);
    }
  }

  // ---------------------------------------------------------------------------------------
  // The curve seen from the start of each stage

  /** When, at what rate and after how many arrivals stage `k` begins. */
  function StartTime(stages: seq<Stage>, k: nat): (t: real)
    requires k <= |stages|
    ensures t >= 0.0
  {
    if k == 0 then 0.0 else StartTime(stages, k - 1) + stages[k - 1].duration as real
  }

  function StartRate(stages: seq<Stage>, k: nat): (r: real)
    requires k <= |stages|
    ensures r >= 0.0
  {
    if k == 0 then 0.0 else stages[k - 1].target as real
  }

  function StageArea(stages: seq<Stage>, k: nat): (a: real)
    requires k < |stages|
    ensures a >= 0.0
  {
    (StartRate(stages, k) + stages[k].target as real) / 2.0 * stages[k].duration as real
  }

  function StartArea(stages: seq<Stage>, k: nat): (a: real)
    requires k <= |stages|
    ensures a >= 0.0
  {
    if k == 0 then 0.0 else StartArea(stages, k - 1) + StageArea(stages, k - 1)
  }

  lemma RateFromCut(stages: seq<Stage>, k: nat, x: real)
    requires k < |stages| && x > stages[k].duration as real
    ensures Rate(stages[k..], StartRate(stages, k), x)
         == Rate(stages[k + 1..], StartRate(stages, k + 1), x - stages[k].duration as real)
  {
    assert stages[k..][0] == stages[k] && stages[k..][1..] == stages[k + 1..];
  }

  lemma AreaAcrossStage(stages: seq<Stage>, k: nat, x: real)
    requires k < |stages| && x >= stages[k].duration as real
    ensures Area(stages[k..], StartRate(stages, k), x)
         == StageArea(stages, k) + Area(stages[k + 1..], StartRate(stages, k + 1), x - stages[k].duration as real)
  {
    assert stages[k..][0] == stages[k] && stages[k..][1..] == stages[k + 1..];
    AreaFromCut(stages[k..], StartRate(stages, k), x);
  }

  /** From the start of stage `k` on, the curve is the one its remaining stages describe. */
  lemma {:induction false} RateSplit(stages: seq<Stage>, k: nat, x: real)
    requires k <= |stages| && x > StartTime(stages, k)
    ensures RateOf(stages)(x) == Rate(stages[k..], StartRate(stages, k), x - StartTime(stages, k))
  {
    if k == 0 {
      assert stages[0..] == stages;
    } else {
      var y := x - StartTime(stages, k - 1);
      RateSplit(stages, k - 1, x);
      RateFromCut(stages, k - 1, y);
      assert y - stages[k - 1].duration as real == x - StartTime(stages, k);
    }
  }

  lemma {:induction false} LambdaSplit(stages: seq<Stage>, k: nat, x: real)
    requires k <= |stages| && x >= StartTime(stages, k)
    ensures Lambda(stages)(x)
         == StartArea(stages, k) + Area(stages[k..], StartRate(stages, k), x - StartTime(stages, k))
  {
    if k == 0 {
      assert stages[0..] == stages;
    } else {
      var y := x - StartTime(stages, k - 1);
      LambdaSplit(stages, k - 1, x);
      AreaAcrossStage(stages, k - 1, y);
      assert y - stages[k - 1].duration as real == x - StartTime(stages, k);
    }
  }

  /** The stage that is running at time `t`, or the number of stages once all are over. */
  lemma {:induction false} StageAt(stages: seq<Stage>, t: real, from: nat) returns (k: nat)
    requires from <= |stages| && StartTime(stages, from) <= t
    ensures from <= k <= |stages| && StartTime(stages, k) <= t
    ensures k < |stages| ==> t <= StartTime(stages, k + 1)
    decreases |stages| - from
  {
    if from == |stages| || t <= StartTime(stages, from + 1) {
      k := from;
    } else {
      k := StageAt(stages, t, from + 1);
    }
  }

  // ---------------------------------------------------------------------------------------
  // Lambda is the only integral of the rate

  function StageSlope(stages: seq<Stage>, k: nat): real
    requires k <= |stages|
  {
    if k == |stages| || stages[k].duration == 0 then 0.0
    else (stages[k].target as real - StartRate(stages, k)) / stages[k].duration as real
  }

  /** Stage `k`'s piece of the curve is a line. */
  lemma StageIsLinear(stages: seq<Stage>, k: nat, b: real)
    requires k <= |stages|
    requires StartTime(stages, k) <= b
    requires k < |stages| ==> b <= StartTime(stages, k + 1)
    ensures LinearOn(RateOf(stages), StartTime(stages, k), b, StartTime(stages, k), StartRate(stages, k),
                     StageSlope(stages, k))
  {
    forall s | StartTime(stages, k) < s <= b
      ensures OnLineAt(RateOf(stages), StartTime(stages, k), StartRate(stages, k), StageSlope(stages, k), s)
    {
      RateOnStage(stages, k, s);
    }
  }

  lemma RateOnStage(stages: seq<Stage>, k: nat, s: real)
    requires k <= |stages|
    requires StartTime(stages, k) < s
    requires k < |stages| ==> s <= StartTime(stages, k + 1)
    ensures OnLineAt(RateOf(stages), StartTime(stages, k), StartRate(stages, k), StageSlope(stages, k), s)
  {
    RateSplit(stages, k, s);
    StageLine(stages, k, s - StartTime(stages, k));
  }

  lemma StageLine(stages: seq<Stage>, k: nat, x: real)
    requires k <= |stages| && x > 0.0
    requires k < |stages| ==> x <= stages[k].duration as real
    ensures Rate(stages[k..], StartRate(stages, k), x) == StartRate(stages, k) + StageSlope(stages, k) * x
  {
    if k < |stages| {
      var dur, rise := stages[k].duration as real, stages[k].target as real - StartRate(stages, k);
      assert x / dur * rise == rise / dur * x;
    }
  }

  lemma {:induction false} AgreeAtStarts(f: real -> real, g: real -> real, stages: seq<Stage>, k: nat)
    requires Accumulates(f, RateOf(stages)) && Accumulates(g, RateOf(stages)) && k <= |stages|
    ensures f(StartTime(stages, k)) == g(StartTime(stages, k))
  {
    if k > 0 {
      AgreeAtStarts(f, g, stages, k - 1);
      StageIsLinear(stages, k - 1, StartTime(stages, k));
      SameGrowth(f, g, RateOf(stages), StartTime(stages, k - 1), StartTime(stages, k),
                 StartTime(stages, k - 1), StartRate(stages, k - 1), StageSlope(stages, k - 1));
    }
  }

  /** `Lambda` is the integral of the rate: it accumulates the rate, and nothing else does. */
  lemma LambdaIsTheIntegral(f: real -> real, stages: seq<Stage>, t: real)
    requires Accumulates(f, RateOf(stages)) && t >= 0.0
    ensures f(t) == Lambda(stages)(t)
  {
    LambdaAccumulates(stages);
    var k := StageAt(stages, t, 0);
    AgreeAtStarts(f, Lambda(stages), stages, k);
    StageIsLinear(stages, k, t);
    SameGrowth(f, Lambda(stages), RateOf(stages), StartTime(stages, k), t,
               StartTime(stages, k), StartRate(stages, k), StageSlope(stages, k));
  }

  // ---------------------------------------------------------------------------------------
  // Consequences

  lemma {:induction false} RateRange(stages: seq<Stage>, r0: real, x: real, top: real)
    requires x >= 0.0 && 0.0 <= r0 <= top && Peak(stages) as real <= top
    ensures 0.0 <= Rate(stages, r0, x) <= top
    decreases |stages|
  {
    hide Rate, Peak;
    RateStep(stages, r0, x);
    PeakStep(stages);
    if stages != [] {
      var dur, target := stages[0].duration as real, stages[0].target as real;
      if x > dur {
        RateRange(stages[1..], target, x - dur, top);
      } else if dur > 0.0 {
        RampRange(r0, target, dur, x, top);
      }
    }
  }

  lemma RateStep(stages: seq<Stage>, r0: real, x: real)
    requires x >= 0.0
    ensures Rate(stages, r0, x)
         == if stages == [] then r0
            else var dur, target := stages[0].duration as real, stages[0].target as real;
                 if x > dur then Rate(stages[1..], target, x - dur)
                     else if dur > 0.0 then r0 + x / dur * (target - r0) else target
  {
  }

  /** The peak is the largest target. */
  lemma {:induction false} PeakIsLargest(stages: seq<Stage>)
    ensures forall i :: 0 <= i < |stages| ==> stages[i].target <= Peak(stages)
    ensures stages != [] ==> exists i :: 0 <= i < |stages| && stages[i].target == Peak(stages)
  {
    if stages != [] {
      var rest := stages[1..];
      PeakIsLargest(rest);
      assert forall i :: 1 <= i < |stages| ==> stages[i] == rest[i - 1];
      if stages[0].target <= Peak(rest) && rest != [] {
        var i :| 0 <= i < |rest| && rest[i].target == Peak(rest);
        assert stages[i + 1].target == Peak(stages);
      } else {
        assert stages[0].target == Peak(stages);
      }
    }
  }

  lemma PeakStep(stages: seq<Stage>)
    ensures stages != [] ==> Peak(stages) >= stages[0].target && Peak(stages) >= Peak(stages[1..])
  {
  }

  lemma RampRange(r0: real, target: real, dur: real, x: real, top: real)
    requires 0.0 <= r0 <= top && 0.0 <= target <= top && 0.0 <= x <= dur && dur > 0.0
    ensures 0.0 <= r0 + x / dur * (target - r0) <= top
  {
    var w := x / dur;
    assert 0.0 <= w <= 1.0;
    Convex(w, r0, target, top);
    assert r0 + w * (target - r0) == (1.0 - w) * r0 + w * target;
  }

  /** The cumulative curve never falls, and never rises faster than the peak rate. */
  lemma LambdaGrowth(stages: seq<Stage>, a: real, b: real)
    requires 0.0 <= a <= b
    ensures 0.0 <= Lambda(stages)(b) - Lambda(stages)(a) <= Peak(stages) as real * (b - a)
  {
    forall s | a < s <= b
      ensures 0.0 <= RateOf(stages)(s) <= Peak(stages) as real
    {
      RateRange(stages, 0.0, s, Peak(stages) as real);
    }
    assert Within(RateOf(stages), a, b, 0.0, Peak(stages) as real);
    LambdaAccumulates(stages);
    assert Between(0.0, Peak(stages) as real, b - a, Lambda(stages)(b) - Lambda(stages)(a));
  }
}
