/** Inverse of the cumulative arrival curve, evaluated in closed form with a monotone cursor. */
module ArrivalSchedules {
  import opened Options
  import opened RateCurve

  /** One stage as a linear-rate segment: rate `r0 + slope * (t - t0)` on `[t0, t0 + dur]`,
      `cum0` arrivals before it and `area` arrivals in it. */
  datatype Seg = Seg(t0: real, dur: real, r0: real, slope: real, cum0: real, area: real)

  ghost predicate IsSqrt(sqrt: real -> real) {
    forall x :: x >= 0.0 ==> sqrt(x) >= 0.0 && sqrt(x) * sqrt(x) == x
  }

  // ---------------------------------------------------------------------------------------
  // What a query must answer, for any cumulative curve

  /** `t` is the first moment at which `m` arrivals have accumulated. */
  ghost predicate FirstReach(cum: real -> real, m: real, t: real) {
    && t >= 0.0
    && cum(t) == m
    && forall u :: 0.0 <= u < t ==> cum(u) < m
  }

  /** `t` is the last moment at which nothing has accumulated. */
  ghost predicate LeavesZero(cum: real -> real, t: real) {
    && t >= 0.0
    && cum(t) == 0.0
    && forall u :: u > t ==> cum(u) > 0.0
  }

  ghost predicate AlwaysBelow(cum: real -> real, m: real) {
    forall t :: t >= 0.0 ==> cum(t) < m
  }

  ghost predicate AlwaysZero(cum: real -> real) {
    forall t :: t >= 0.0 ==> cum(t) == 0.0
  }

  /** The answer to the query `m`: for a positive `m` the first moment `m` is reached, or none
      if it never is; otherwise the moment arrivals begin, or none if they never do. */
  ghost predicate Answers(cum: real -> real, m: real, r: Option<real>) {
    match r
    case Some(t) => if m > 0.0 then FirstReach(cum, m, t) else LeavesZero(cum, t)
    case None => if m > 0.0 then AlwaysBelow(cum, m) else AlwaysZero(cum)
  }

  lemma SomethingAccumulates(cum: real -> real, t: real)
    requires LeavesZero(cum, t)
    ensures t + 1.0 >= 0.0 && cum(t + 1.0) > 0.0
  {
  }

  /** A query has only one answer, so the history of the cursor cannot show in it: a reused
      schedule and a fresh one agree. */
  lemma AnswersAgree(cum: real -> real, m: real, r: Option<real>, r': Option<real>)
    requires Answers(cum, m, r) && Answers(cum, m, r')
    ensures r == r'
  {
    if r.Some? && m <= 0.0 {
      SomethingAccumulates(cum, r.value);
    }
    if r'.Some? && m <= 0.0 {
      SomethingAccumulates(cum, r'.value);
    }
  }

  /** A positive `m` is answered exactly when the curve ever reaches it. */
  lemma AnsweredIffReachable(cum: real -> real, m: real, r: Option<real>)
    requires Answers(cum, m, r) && m > 0.0
    ensures r.Some? <==> exists t :: t >= 0.0 && cum(t) == m
  {
    if r.Some? {
      assert r.value >= 0.0 && cum(r.value) == m;
    }
  }

  // ---------------------------------------------------------------------------------------
  // When the answer is the documented one

  /** The documented answer: the smallest `t` with cumulative value `m`, none if `m` is not reached. */
  ghost predicate Documented(cum: real -> real, m: real, r: Option<real>) {
    match r
    case Some(t) => FirstReach(cum, m, t)
    case None => forall t :: t >= 0.0 ==> cum(t) != m
  }

  /** Arrivals begin at time 0: past the stages of no duration, the rate at the start or at the end
      of the first real stage is positive, or with no such stage the held rate is. */
  predicate StartsAtOnce(stages: seq<Stage>, r0: real) {
    if stages == [] then r0 > 0.0
    else if stages[0].duration == 0 then StartsAtOnce(stages[1..], stages[0].target as real)
    else r0 > 0.0 || stages[0].target > 0
  }

  /** No arrival ever comes: no real stage touches a positive rate, and none is held at the end. */
  predicate NeverStarts(stages: seq<Stage>, r0: real) {
    if stages == [] then r0 <= 0.0
    else if stages[0].duration == 0 then NeverStarts(stages[1..], stages[0].target as real)
    else r0 <= 0.0 && stages[0].target == 0 && NeverStarts(stages[1..], 0.0)
  }

  lemma AreaNonNegative(stages: seq<Stage>, r0: real, x: real)
    requires r0 >= 0.0 && x >= 0.0
    ensures Area(stages, r0, x) >= 0.0
  {
    var top := if r0 > Peak(stages) as real then r0 else Peak(stages) as real;
    forall s | 0.0 < s <= x
      ensures 0.0 <= RateFrom(stages, r0)(s) <= top
    {
      RateRange(stages, r0, s, top);
    }
    AreaBounds(stages, r0, 0.0, x, 0.0, top);
    AreaAtZero(stages, r0);
  }

  lemma {:induction false} StartsMeansPositive(stages: seq<Stage>, r0: real, x: real)
    requires r0 >= 0.0 && x > 0.0 && StartsAtOnce(stages, r0)
    ensures Area(stages, r0, x) > 0.0
    decreases |stages|
  {
    if stages != [] {
      var dur, target := stages[0].duration as real, stages[0].target as real;
      if stages[0].duration == 0 {
        StartsMeansPositive(stages[1..], target, x);
      } else if x <= dur {
        PositiveRamp(r0, target, dur, (target - r0) / dur, x);
      } else {
        AreaNonNegative(stages[1..], target, x - dur);
        assert (r0 + target) / 2.0 * dur > 0.0;
      }
    }
  }

  lemma {:induction false} WaitsMeansZero(stages: seq<Stage>, r0: real) returns (x: real)
    requires r0 >= 0.0 && !StartsAtOnce(stages, r0)
    ensures x > 0.0 && Area(stages, r0, x) == 0.0
    decreases |stages|
  {
    x := 1.0;
    if stages != [] {
      if stages[0].duration == 0 {
        x := WaitsMeansZero(stages[1..], stages[0].target as real);
      } else {
        x := stages[0].duration as real;
      }
    }
  }

  lemma {:induction false} NeverMeansZero(stages: seq<Stage>, r0: real, x: real)
    requires r0 >= 0.0 && x >= 0.0 && NeverStarts(stages, r0)
    ensures Area(stages, r0, x) == 0.0
    decreases |stages|
  {
    if stages != [] {
      var dur, target := stages[0].duration as real, stages[0].target as real;
      if x > dur {
        NeverMeansZero(stages[1..], target, x - dur);
      }
    }
  }

  lemma {:induction false} SomewhereMeansPositive(stages: seq<Stage>, r0: real) returns (x: real)
    requires r0 >= 0.0 && !NeverStarts(stages, r0)
    ensures x >= 0.0 && Area(stages, r0, x) > 0.0
    decreases |stages|
  {
    x := 1.0;
    if stages != [] {
      var dur, target := stages[0].duration as real, stages[0].target as real;
      if stages[0].duration > 0 && (r0 > 0.0 || target > 0.0) {
        x := dur;
        PositiveRamp(r0, target, dur, (target - r0) / dur, dur);
      } else {
        var y := SomewhereMeansPositive(stages[1..], target);
        AreaAtZero(stages[1..], target);
        x := dur + y;
        assert x - dur == y;
      }
    }
  }

  /** At `m = 0` the answer is time 0 exactly when arrivals begin at once. */
  lemma ZeroIsAnsweredAtOnce(stages: seq<Stage>, r: Option<real>)
    requires Answers(Lambda(stages), 0.0, r)
    ensures r == Some(0.0) <==> StartsAtOnce(stages, 0.0)
  {
    var cum := Lambda(stages);
    if StartsAtOnce(stages, 0.0) {
      forall x | x > 0.0
        ensures cum(x) > 0.0
      {
        StartsMeansPositive(stages, 0.0, x);
      }
      assert cum(1.0) > 0.0;
    } else {
      var x := WaitsMeansZero(stages, 0.0);
      assert cum(x) == 0.0;
    }
  }

  /** Below 0 nothing is reached, and the answer is none exactly when no arrival ever comes. */
  lemma NothingIsAnsweredIfNever(stages: seq<Stage>, m: real, r: Option<real>)
    requires Answers(Lambda(stages), m, r) && m <= 0.0
    ensures r == None <==> NeverStarts(stages, 0.0)
  {
    var cum := Lambda(stages);
    if NeverStarts(stages, 0.0) {
      if r.Some? {
        SomethingAccumulates(cum, r.value);
        NeverMeansZero(stages, 0.0, r.value + 1.0);
      }
    } else {
      var x := SomewhereMeansPositive(stages, 0.0);
      assert cum(x) > 0.0;
    }
  }

  /** The answer is the documented one for every positive `m`; for `m = 0` exactly when arrivals
      begin at once; and for a negative `m` exactly when no arrival ever comes. */
  lemma WhenAnswersAreDocumented(stages: seq<Stage>, m: real, r: Option<real>)
    requires Answers(Lambda(stages), m, r)
    ensures Documented(Lambda(stages), m, r)
            <==> m > 0.0 || (m == 0.0 && StartsAtOnce(stages, 0.0)) || (m < 0.0 && NeverStarts(stages, 0.0))
  {
    var cum := Lambda(stages);
    LambdaMonotone(stages);
    AreaAtZero(stages, 0.0);
    assert cum(0.0) == 0.0;
    if m == 0.0 {
      ZeroIsAnsweredAtOnce(stages, r);
    } else if m < 0.0 {
      NothingIsAnsweredIfNever(stages, m, r);
    }
  }

  /** With a leading stage held at rate 0 the query 0 is answered at the end of the hold, and with
      nothing but such a hold it is not answered, though 0 arrivals are reached at time 0. */
  lemma LeadingHoldMissesLeastRoot()
    ensures var cum := Lambda([Stage(10, 0), Stage(10, 5)]);
            Answers(cum, 0.0, Some(10.0)) && !Documented(cum, 0.0, Some(10.0)) && FirstReach(cum, 0.0, 0.0)
    ensures var cum := Lambda([Stage(10, 0)]);
            Answers(cum, 0.0, None) && !Documented(cum, 0.0, None) && FirstReach(cum, 0.0, 0.0)
  {
    var stages, hold := [Stage(10, 0), Stage(10, 5)], [Stage(10, 0)];
    assert StartRate(stages, 1) == 0.0 && StageArea(stages, 0) == 0.0 && StageArea(stages, 1) == 25.0;
    assert StartArea(stages, 1) == 0.0 && StartTime(stages, 1) == 10.0;
    ZeroUntilStage(stages, 1);
    AreaAtZero(stages, 0.0);
    AreaAtZero(hold, 0.0);
    assert Lambda(stages)(0.0) == 0.0 && Lambda(hold)(0.0) == 0.0;
    forall t | t >= 0.0
      ensures Lambda(hold)(t) == 0.0
    {
      NeverMeansZero(hold, 0.0, t);
    }
  }

  // ---------------------------------------------------------------------------------------
  // Inverting one segment

  function Discriminant(r0: real, slope: real, delta: real): real {
    r0 * r0 + 2.0 * slope * delta
  }

  /** The positive root of `slope / 2 * tau * tau + r0 * tau == delta`, without cancellation. */
  function Root(r0: real, s: real, delta: real): real
    requires r0 + s != 0.0
  {
    2.0 * delta / (r0 + s)
  }

  lemma DiscriminantNonNegative(r0: real, target: real, dur: real, slope: real, delta: real)
    requires r0 >= 0.0 && target >= 0.0 && dur > 0.0
    requires 0.0 < delta <= (r0 + target) / 2.0 * dur
    requires slope * dur == target - r0
    ensures Discriminant(r0, slope, delta) >= 0.0
    ensures r0 == 0.0 ==> Discriminant(r0, slope, delta) > 0.0
  {
    if target >= r0 {
      assert slope >= 0.0;
      assert slope * delta >= 0.0;
      if r0 == 0.0 {
        assert target > 0.0;
        assert slope > 0.0;
        assert slope * delta > 0.0;
      }
    } else {
      var area := (r0 + target) / 2.0 * dur;
      assert slope < 0.0;
      assert slope * delta >= slope * area;
      assert 2.0 * slope * area == (r0 + target) * (slope * dur);
      assert (r0 + target) * (target - r0) == target * target - r0 * r0;
      assert target * target >= 0.0;
    }
  }

  /** The cancellation-free root: the segment has produced exactly `delta` arrivals at `tau`, when its rate is `s`. */
  lemma RootIsExact(r0: real, slope: real, delta: real, s: real, tau: real)
    requires r0 >= 0.0 && s >= 0.0 && r0 + s > 0.0 && delta > 0.0
    requires s * s == Discriminant(r0, slope, delta) && tau == Root(r0, s, delta)
    ensures tau > 0.0 && r0 + slope * tau == s && PieceArea(r0, slope, tau) == delta
  {
    var d := r0 + s;
    assert tau * d == 2.0 * delta;
    assert (s - r0) * d == s * s - r0 * r0;
    assert (slope * tau) * d == slope * (tau * d) == 2.0 * slope * delta;
    assert (s - r0 - slope * tau) * d == 0.0;
    assert s - r0 == slope * tau;
    assert PieceArea(r0, slope, tau) == tau * (r0 + slope * tau / 2.0);
    assert r0 + slope * tau / 2.0 == d / 2.0;
    assert tau * (d / 2.0) == delta;
  }

  /** Growth between two moments of a segment: width times the mean of the two rates. */
  lemma QuadGrowth(r0: real, slope: real, x: real, y: real)
    ensures PieceArea(r0, slope, y) - PieceArea(r0, slope, x) == (y - x) * ((r0 + slope * x) + (r0 + slope * y)) / 2.0
  {
    assert slope * y * y - slope * x * x == (y - x) * (slope * x + slope * y);
  }

  /** Before the root fewer than `delta` arrivals have been produced. */
  lemma RootIsFirst(r0: real, slope: real, s: real, tau: real, x: real)
    requires r0 >= 0.0 && s >= 0.0 && r0 + s > 0.0 && 0.0 <= x < tau && r0 + slope * tau == s
    ensures PieceArea(r0, slope, x) < PieceArea(r0, slope, tau)
  {
    QuadGrowth(r0, slope, x, tau);
    var r := r0 + slope * x;
    assert r * tau == r0 * (tau - x) + s * x by {
      assert slope * x * tau == (slope * tau) * x;
      assert r * tau == r0 * tau + (slope * tau) * x;
      assert (slope * tau) * x == (s - r0) * x;
    }
    assert r0 * (tau - x) >= 0.0 && s * x >= 0.0;
    assert (r + s) * tau == r0 * (tau - x) + s * x + s * tau;
    assert s * tau >= 0.0;
    assert r + s > 0.0 by {
      if s > 0.0 {
        assert s * tau > 0.0;
        assert (r + s) * tau > 0.0;
      } else {
        assert r0 * (tau - x) > 0.0;
        assert (r + s) * tau > 0.0;
      }
    }
    assert (tau - x) * (r + s) > 0.0;
  }

  /** The root lies inside the segment, so clamping it to the duration changes nothing. */
  lemma RootInSegment(r0: real, target: real, dur: real, slope: real, delta: real, s: real, tau: real)
    requires r0 >= 0.0 && target >= 0.0 && dur > 0.0 && slope * dur == target - r0
    requires 0.0 < delta <= (r0 + target) / 2.0 * dur
    requires s >= 0.0 && r0 + s > 0.0 && tau > 0.0 && r0 + slope * tau == s && PieceArea(r0, slope, tau) == delta
    ensures tau <= dur
  {
    if tau > dur {
      QuadGrowth(r0, slope, 0.0, dur);
      assert PieceArea(r0, slope, dur) == dur * (r0 + target) / 2.0;
      RootIsFirst(r0, slope, s, tau, dur);
    }
  }

  // ---------------------------------------------------------------------------------------
  // Answering from one segment of a curve

  /** From `t0` on, for `dur` seconds, the curve is `c0` plus a linear-rate segment. */
  ghost predicate RampOn(cum: real -> real, t0: real, c0: real, r0: real, slope: real, dur: real) {
    forall x :: 0.0 <= x <= dur ==> RampAt(cum, t0, c0, r0, slope, x)
  }

  ghost predicate RampAt(cum: real -> real, t0: real, c0: real, r0: real, slope: real, x: real) {
    cum(t0 + x) == c0 + PieceArea(r0, slope, x)
  }

  ghost predicate AtMostBefore(cum: real -> real, t0: real, c0: real) {
    forall u :: 0.0 <= u <= t0 ==> cum(u) <= c0
  }

  lemma AnswerInRamp(cum: real -> real, t0: real, c0: real, r0: real, target: real, slope: real, dur: real,
                     delta: real, s: real, tau: real)
    requires RampOn(cum, t0, c0, r0, slope, dur) && AtMostBefore(cum, t0, c0) && t0 >= 0.0
    requires r0 >= 0.0 && target >= 0.0 && dur > 0.0 && slope * dur == target - r0
    requires 0.0 < delta <= (r0 + target) / 2.0 * dur
    requires s >= 0.0 && r0 + s > 0.0 && s * s == Discriminant(r0, slope, delta) && tau == Root(r0, s, delta)
    ensures tau <= dur && FirstReach(cum, c0 + delta, t0 + tau)
  {
    RootIsExact(r0, slope, delta, s, tau);
    RootInSegment(r0, target, dur, slope, delta, s, tau);
    assert RampAt(cum, t0, c0, r0, slope, tau);
    forall u | 0.0 <= u < t0 + tau
      ensures cum(u) < c0 + delta
    {
      if u > t0 {
        RootIsFirst(r0, slope, s, tau, u - t0);
        assert RampAt(cum, t0, c0, r0, slope, u - t0);
        assert t0 + (u - t0) == u;
      }
    }
  }

  lemma AnswerInSegment(cum: real -> real, t0: real, c0: real, r0: real, target: real, slope: real, dur: real,
                        delta: real, disc: real, s: real)
    requires RampOn(cum, t0, c0, r0, slope, dur) && AtMostBefore(cum, t0, c0) && t0 >= 0.0
    requires r0 >= 0.0 && target >= 0.0 && dur > 0.0 && slope * dur == target - r0
    requires 0.0 < delta <= (r0 + target) / 2.0 * dur
    requires disc == if Discriminant(r0, slope, delta) > 0.0 then Discriminant(r0, slope, delta) else 0.0
    requires s >= 0.0 && s * s == disc
    ensures r0 + s > 0.0
    ensures Root(r0, s, delta) <= dur
    ensures FirstReach(cum, c0 + delta, t0 + Root(r0, s, delta))
  {
    DiscriminantNonNegative(r0, target, dur, slope, delta);
    assert r0 + s > 0.0;
    AnswerInRamp(cum, t0, c0, r0, target, slope, dur, delta, s, Root(r0, s, delta));
  }

  lemma ZeroUntilRamp(cum: real -> real, t0: real, r0: real, target: real, slope: real, dur: real)
    requires RampOn(cum, t0, 0.0, r0, slope, dur) && t0 >= 0.0
    requires r0 >= 0.0 && target >= 0.0 && dur > 0.0 && slope * dur == target - r0 && r0 + target > 0.0
    requires forall x, y :: 0.0 <= x <= y ==> cum(x) <= cum(y)
    ensures LeavesZero(cum, t0)
  {
    assert RampAt(cum, t0, 0.0, r0, slope, 0.0);
    forall u | u > t0
      ensures cum(u) > 0.0
    {
      var x := if u - t0 < dur then u - t0 else dur;
      PositiveRamp(r0, target, dur, slope, x);
      assert RampAt(cum, t0, 0.0, r0, slope, x);
      assert cum(t0 + x) <= cum(u);
    }
  }

  lemma PositiveRamp(r0: real, target: real, dur: real, slope: real, x: real)
    requires r0 >= 0.0 && target >= 0.0 && r0 + target > 0.0 && slope * dur == target - r0 && 0.0 < x <= dur
    ensures PieceArea(r0, slope, x) > 0.0
  {
    QuadGrowth(r0, slope, 0.0, x);
    var r := r0 + slope * x;
    assert r * dur == r0 * (dur - x) + target * x by {
      assert slope * x * dur == (slope * dur) * x;
      assert r * dur == r0 * dur + (slope * dur) * x;
      assert (slope * dur) * x == (target - r0) * x;
    }
    assert r0 * (dur - x) >= 0.0 && target * x >= 0.0;
    assert (r0 + r) * dur == r0 * dur + r0 * (dur - x) + target * x;
    assert r0 + r > 0.0 by {
      if r0 > 0.0 {
        assert r0 * dur > 0.0;
      } else {
        assert target * x > 0.0;
      }
      assert (r0 + r) * dur > 0.0;
    }
    assert x * (r0 + r) > 0.0;
  }

  /** Past the last stage the curve grows at the constant last rate. */
  ghost predicate LinearFrom(cum: real -> real, t0: real, c0: real, r: real) {
    forall x :: x >= 0.0 ==> RampAt(cum, t0, c0, r, 0.0, x)
  }

  lemma LinearValue(cum: real -> real, t0: real, c0: real, r: real, u: real)
    requires LinearFrom(cum, t0, c0, r) && u >= t0
    ensures cum(u) == c0 + r * (u - t0)
  {
    assert RampAt(cum, t0, c0, r, 0.0, u - t0);
    assert t0 + (u - t0) == u;
  }

  lemma AnswerInTail(cum: real -> real, t0: real, c0: real, r: real, delta: real)
    requires LinearFrom(cum, t0, c0, r) && AtMostBefore(cum, t0, c0) && t0 >= 0.0 && r > 0.0 && delta > 0.0
    ensures FirstReach(cum, c0 + delta, t0 + delta / r)
  {
    var x := delta / r;
    assert r * x == delta;
    LinearValue(cum, t0, c0, r, t0 + x);
    forall u | 0.0 <= u < t0 + x
      ensures cum(u) < c0 + delta
    {
      if u > t0 {
        LinearValue(cum, t0, c0, r, u);
        ScaleLess(r, u - t0, x);
      }
    }
  }

  lemma ScaleLess(r: real, x: real, y: real)
    requires r > 0.0 && x < y
    ensures r * x < r * y
  {
  }

  lemma ZeroUntilTail(cum: real -> real, t0: real, r: real)
    requires LinearFrom(cum, t0, 0.0, r) && AtMostBefore(cum, t0, 0.0) && t0 >= 0.0 && r >= 0.0
    requires forall x :: x >= 0.0 ==> cum(x) >= 0.0
    ensures r > 0.0 ==> LeavesZero(cum, t0)
    ensures r == 0.0 ==> AlwaysZero(cum)
  {
    LinearValue(cum, t0, 0.0, r, t0);
    forall u | u > t0
      ensures r > 0.0 ==> cum(u) > 0.0
      ensures r == 0.0 ==> cum(u) == 0.0
    {
      LinearValue(cum, t0, 0.0, r, u);
    }
  }

  lemma FlatTailNeverReaches(cum: real -> real, t0: real, c0: real, m: real)
    requires LinearFrom(cum, t0, c0, 0.0) && AtMostBefore(cum, t0, c0) && c0 < m
    ensures AlwaysBelow(cum, m)
  {
    forall u | u >= 0.0
      ensures cum(u) < m
    {
      if u > t0 {
        LinearValue(cum, t0, c0, 0.0, u);
      }
    }
  }

  // ---------------------------------------------------------------------------------------
  // The table of segments

  function SegAt(stages: seq<Stage>, k: nat): Seg
    requires k < |stages|
  {
    Seg(StartTime(stages, k), stages[k].duration as real, StartRate(stages, k), StageSlope(stages, k),
        StartArea(stages, k), StageArea(stages, k))
  }

  lemma LambdaMonotone(stages: seq<Stage>)
    ensures forall x, y :: 0.0 <= x <= y ==> Lambda(stages)(x) <= Lambda(stages)(y)
    ensures forall x :: x >= 0.0 ==> Lambda(stages)(x) >= 0.0
  {
    AreaAtZero(stages, 0.0);
    forall x, y | 0.0 <= x <= y
      ensures Lambda(stages)(x) <= Lambda(stages)(y)
    {
      LambdaGrowth(stages, x, y);
    }
    assert Lambda(stages)(0.0) == 0.0;
  }

  lemma StageIsRamp(stages: seq<Stage>, k: nat)
    requires k < |stages|
    ensures var seg := SegAt(stages, k);
            seg.dur > 0.0 ==> RampOn(Lambda(stages), seg.t0, seg.cum0, seg.r0, seg.slope, seg.dur)
  {
    var seg := SegAt(stages, k);
    forall x | 0.0 <= x <= seg.dur && seg.dur > 0.0
      ensures RampAt(Lambda(stages), seg.t0, seg.cum0, seg.r0, seg.slope, x)
    {
      RampInStage(stages, k, x);
    }
  }

  lemma RampInStage(stages: seq<Stage>, k: nat, x: real)
    requires k < |stages| && 0.0 <= x <= stages[k].duration as real && stages[k].duration > 0
    ensures var seg := SegAt(stages, k);
            RampAt(Lambda(stages), seg.t0, seg.cum0, seg.r0, seg.slope, x)
  {
    var seg := SegAt(stages, k);
    LambdaSplit(stages, k, seg.t0 + x);
    assert seg.t0 + x - StartTime(stages, k) == x;
    AreaInStage(stages, k, x);
  }

  lemma AreaInStage(stages: seq<Stage>, k: nat, x: real)
    requires k < |stages| && 0.0 <= x <= stages[k].duration as real && stages[k].duration > 0
    ensures Area(stages[k..], StartRate(stages, k), x) == PieceArea(StartRate(stages, k), StageSlope(stages, k), x)
  {
  }

  lemma TailIsLinear(stages: seq<Stage>)
    ensures var n := |stages|;
            LinearFrom(Lambda(stages), StartTime(stages, n), StartArea(stages, n), StartRate(stages, n))
  {
    hide Area, PieceArea, StartTime, StartArea, StartRate;
    var n := |stages|;
    assert stages[n..] == [];
    forall x | x >= 0.0
      ensures RampAt(Lambda(stages), StartTime(stages, n), StartArea(stages, n), StartRate(stages, n), 0.0, x)
    {
      LambdaSplit(stages, n, StartTime(stages, n) + x);
      AreaOfTail(StartRate(stages, n), x);
      assert StartTime(stages, n) + x - StartTime(stages, n) == x;
    }
  }

  lemma AreaOfTail(r: real, x: real)
    ensures Area([], r, x) == PieceArea(r, 0.0, x)
  {
  }

  lemma StartBoundsEarlier(stages: seq<Stage>, k: nat)
    requires k <= |stages|
    ensures AtMostBefore(Lambda(stages), StartTime(stages, k), StartArea(stages, k))
  {
    LambdaMonotone(stages);
    LambdaSplit(stages, k, StartTime(stages, k));
    AreaAtZero(stages[k..], StartRate(stages, k));
  }

  lemma ZeroUntilStage(stages: seq<Stage>, k: nat)
    requires k < |stages| && StageArea(stages, k) > 0.0 && StartArea(stages, k) == 0.0
    ensures LeavesZero(Lambda(stages), StartTime(stages, k))
  {
    var seg := SegAt(stages, k);
    StageIsRamp(stages, k);
    LambdaMonotone(stages);
    PositiveArea(seg.r0, stages[k].target as real, seg.dur);
    ZeroUntilRamp(Lambda(stages), seg.t0, seg.r0, stages[k].target as real, seg.slope, seg.dur);
  }

  lemma PositiveArea(r0: real, target: real, dur: real)
    requires r0 >= 0.0 && target >= 0.0 && dur >= 0.0 && (r0 + target) / 2.0 * dur > 0.0
    ensures dur > 0.0 && r0 + target > 0.0
  {
  }

  lemma AnswerAfterEnd(stages: seq<Stage>, m: real)
    requires var c := StartArea(stages, |stages|); c == 0.0 || c < m
    ensures var n := |stages|;
            var t, c, r := StartTime(stages, n), StartArea(stages, n), StartRate(stages, n);
            Answers(Lambda(stages), m,
                    if r > 0.0 then Some(t + (if m - c > 0.0 then m - c else 0.0) / r) else None)
  {
    var n := |stages|;
    var t, c, r := StartTime(stages, n), StartArea(stages, n), StartRate(stages, n);
    TailIsLinear(stages);
    StartBoundsEarlier(stages, n);
    if m <= 0.0 {
      LambdaMonotone(stages);
      ZeroUntilTail(Lambda(stages), t, r);
    } else if r > 0.0 {
      AnswerInTail(Lambda(stages), t, c, r, m - c);
    } else {
      FlatTailNeverReaches(Lambda(stages), t, c, m);
    }
  }

  lemma SlopeTimesDuration(stages: seq<Stage>, k: nat)
    requires k < |stages| && StageArea(stages, k) > 0.0
    ensures var seg, target := SegAt(stages, k), stages[k].target as real;
            seg.dur > 0.0 && seg.slope * seg.dur == target - seg.r0 && seg.area == (seg.r0 + target) / 2.0 * seg.dur
  {
    PositiveArea(StartRate(stages, k), stages[k].target as real, stages[k].duration as real);
  }

  /** Inside a segment the discriminant needs no clamp at 0, the root's denominator is positive,
      and the root, which needs no clamp at the duration, is the answer. */
  lemma AnswerInStage(stages: seq<Stage>, k: nat, delta: real, disc: real, s: real)
    requires k < |stages| && 0.0 < delta <= StageArea(stages, k)
    requires var d := Discriminant(StartRate(stages, k), StageSlope(stages, k), delta);
             disc == if d > 0.0 then d else 0.0
    requires s >= 0.0 && s * s == disc
    ensures var seg := SegAt(stages, k);
            && seg.r0 + s > 0.0
            && Root(seg.r0, s, delta) <= seg.dur
            && FirstReach(Lambda(stages), seg.cum0 + delta, seg.t0 + Root(seg.r0, s, delta))
  {
    var seg, target := SegAt(stages, k), stages[k].target as real;
    SlopeTimesDuration(stages, k);
    AnswerInSegment(Lambda(stages), seg.t0, seg.cum0, seg.r0, target, seg.slope, seg.dur, delta, disc, s) by {
      StageIsRamp(stages, k);
      StartBoundsEarlier(stages, k);
    }
  }

  lemma AnswerInsideStage(stages: seq<Stage>, k: nat, m: real, sqrt: real -> real) returns (t: real)
    requires IsSqrt(sqrt)
    requires k < |stages| && StageArea(stages, k) > 0.0 && m <= StartArea(stages, k) + StageArea(stages, k)
    requires StartArea(stages, k) == 0.0 || StartArea(stages, k) < m
    ensures Answers(Lambda(stages), m, Some(t))
  {
    hide StartTime, StartArea, StartRate, StageArea, StageSlope, Discriminant, Root, FirstReach, LeavesZero;
    var delta := if m - StartArea(stages, k) > 0.0 then m - StartArea(stages, k) else 0.0;
    if delta == 0.0 {
      ZeroUntilStage(stages, k);
      t := StartTime(stages, k);
    } else {
      var disc := Discriminant(StartRate(stages, k), StageSlope(stages, k), delta);
      disc := if disc > 0.0 then disc else 0.0;
      AnswerInStage(stages, k, delta, disc, sqrt(disc));
      t := StartTime(stages, k) + Root(StartRate(stages, k), sqrt(disc), delta);
    }
  }

  /** Every query has an answer. */
  lemma AnswerExists(stages: seq<Stage>, m: real, sqrt: real -> real, k: nat) returns (r: Option<real>)
    requires IsSqrt(sqrt) && k <= |stages|
    requires StartArea(stages, k) == 0.0 || StartArea(stages, k) < m
    ensures Answers(Lambda(stages), m, r)
    decreases |stages| - k
  {
    if k == |stages| {
      AnswerAfterEnd(stages, m);
      var t, c, rate := StartTime(stages, k), StartArea(stages, k), StartRate(stages, k);
      r := if rate > 0.0 then Some(t + (if m - c > 0.0 then m - c else 0.0) / rate) else None;
    } else if StageArea(stages, k) > 0.0 && m <= StartArea(stages, k) + StageArea(stages, k) {
      var t := AnswerInsideStage(stages, k, m, sqrt);
      r := Some(t);
    } else {
      r := AnswerExists(stages, m, sqrt, k + 1);
    }
  }

  // ---------------------------------------------------------------------------------------
  // The schedule itself

  lemma StartOfCurve(stages: seq<Stage>)
    ensures StartTime(stages, 0) == StartRate(stages, 0) == StartArea(stages, 0) == 0.0
  {
  }

  lemma NextStage(stages: seq<Stage>, i: nat)
    requires i < |stages|
    ensures var dur, target, r0 := stages[i].duration as real, stages[i].target as real, StartRate(stages, i);
            && StageSlope(stages, i) == (if dur > 0.0 then (target - r0) / dur else 0.0)
            && StageArea(stages, i) == (if dur > 0.0 then (r0 + target) / 2.0 * dur else 0.0)
            && StartTime(stages, i + 1) == StartTime(stages, i) + dur
            && StartArea(stages, i + 1) == StartArea(stages, i) + StageArea(stages, i)
            && StartRate(stages, i + 1) == target
  {
  }

  class ArrivalSchedule {
    var segs: seq<Seg>
    /** First segment that may still contain a query; it only moves forward. */
    var cursor: nat
    var endT: real
    var endCum: real
    var tailRate: real
    /** Segments inspected so far. */
    var scans: nat

    ghost var stages: seq<Stage>
    ghost var queries: nat
    ghost var last: real

    ghost predicate Valid()
      reads this
    {
      && |segs| == |stages|
      && (forall k :: 0 <= k < |stages| ==> segs[k] == SegAt(stages, k))
      && endT == StartTime(stages, |stages|)
      && endCum == StartArea(stages, |stages|)
      && tailRate == StartRate(stages, |stages|)
      && cursor <= |stages|
      && scans <= cursor + queries
      && (queries == 0 ==> cursor == 0)
      // whatever the cursor has passed lies strictly below every later query
      && (StartArea(stages, cursor) == 0.0 || (queries > 0 && StartArea(stages, cursor) < last))
    }

    constructor (stages: seq<Stage>)
      ensures Valid() && this.stages == stages && queries == 0 && scans == 0
    {
      hide StartTime, StartRate, StartArea, StageArea, StageSlope;
      var segs, t0, cum0, r0 := [], 0.0, 0.0, 0.0;
      StartOfCurve(stages);
      for i := 0 to |stages|
        invariant |segs| == i
        invariant forall k :: 0 <= k < i ==> segs[k] == SegAt(stages, k)
        invariant t0 == StartTime(stages, i) && cum0 == StartArea(stages, i) && r0 == StartRate(stages, i)
      {
        var dur := stages[i].duration as real;
        var target := stages[i].target as real;
        var slope, area := 0.0, 0.0;
        if dur > 0.0 {
          slope, area := (target - r0) / dur, (r0 + target) / 2.0 * dur;
        }
        NextStage(stages, i);
        segs := segs + [Seg(t0, dur, r0, slope, cum0, area)];
        t0 := t0 + dur;
        cum0 := cum0 + area;
        r0 := target;
      }
      this.segs := segs;
      this.cursor, this.scans := 0, 0;
      this.endT, this.endCum, this.tailRate := t0, cum0, r0;
      this.stages, this.queries, this.last := stages, 0, 0.0;
    }

    /** The root inside a segment that contains `m`. */
    method RootInside(ghost k: nat, seg: Seg, m: real, sqrt: real -> real) returns (t: real)
      requires IsSqrt(sqrt)
      requires k < |stages| && seg == SegAt(stages, k) && seg.area > 0.0 && m <= seg.cum0 + seg.area
      requires seg.cum0 == 0.0 || seg.cum0 < m
      ensures Answers(Lambda(stages), m, Some(t))
    {
      hide StartTime, StartArea, StartRate, StageArea, StageSlope, Discriminant, Root, FirstReach, LeavesZero;
      var delta := if m - seg.cum0 > 0.0 then m - seg.cum0 else 0.0;
      if delta == 0.0 {
        ZeroUntilStage(stages, k);
        return seg.t0;
      }
      var disc := Discriminant(seg.r0, seg.slope, delta);
      disc := if disc > 0.0 then disc else 0.0;
      AnswerInStage(stages, k, delta, disc, sqrt(disc));
      var tau := Root(seg.r0, sqrt(disc), delta);
      return seg.t0 + if tau < seg.dur then tau else seg.dur;
    }

    /** Past the last segment the last target is held. */
    method RootInTail(m: real) returns (r: Option<real>)
      requires Valid() && (endCum == 0.0 || endCum < m)
      ensures Answers(Lambda(stages), m, r)
    {
      AnswerAfterEnd(stages, m);
      if tailRate > 0.0 {
        return Some(endT + (if m - endCum > 0.0 then m - endCum else 0.0) / tailRate);
      } else {
        return None;
      }
    }

    /** Answers the query `m`; queries must not decrease.  Over any run of queries at most one
        segment per query and one per stage is inspected. */
    method TimeAt(m: real, sqrt: real -> real) returns (r: Option<real>)
      requires Valid() && IsSqrt(sqrt)
      requires queries > 0 ==> last <= m
      modifies this
      ensures Valid() && stages == old(stages) && queries == old(queries) + 1 && last == m
      ensures old(cursor) <= cursor
      ensures Answers(Lambda(stages), m, r)
      ensures scans <= |stages| + queries
    {
      hide Lambda, IsSqrt, Answers;
      queries, last := queries + 1, m;
      while cursor < |segs|
        invariant Valid() && stages == old(stages) && queries == old(queries) + 1 && last == m
        invariant old(cursor) <= cursor && scans <= cursor + old(queries)
        decreases |segs| - cursor
      {
        var seg := segs[cursor];
        scans := scans + 1;
        if seg.area > 0.0 && m <= seg.cum0 + seg.area {
          var t := RootInside(cursor, seg, m, sqrt);
          return Some(t);
        }
        cursor := cursor + 1;
      }
      r := RootInTail(m);
    }
  }
}
