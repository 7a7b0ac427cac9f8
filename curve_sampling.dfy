/**
 * One baked rotation curve: sorted key times with a rotation per key, and
 * the lookup that wraps a time into the clip, finds the key interval that
 * brackets it and interpolates between the two rotations.
 *
 * Times are reals without rounding: the C# `while (time < 0) time += timeLength`
 * and the float `%` that follows are modelled on exact reals, and `Slerp`
 * stays uninterpreted.
 */
module CurveSampling {
  import opened Transforms

  /** The rotation track of the bone bound at `bindPath`. */
  datatype CurveData = CurveData(bindPath: string, times: seq<real>, localRotations: seq<Quaternion>)

  /** The key interval a time falls in and the weight between its ends. */
  datatype TimeIndex = TimeIndex(index: nat, rate: real)

  ghost predicate StrictlyIncreasing(times: seq<real>)
  {
    forall k :: 0 <= k < |times| - 1 ==> times[k] < times[k + 1]
  }

  /**
   * A curve the lookup can read: at least two rotations (the fallback reads
   * keys 0 and 1), a rotation for every key time, and sorted key times.
   */
  ghost predicate Sampleable(c: CurveData)
  {
    |c.localRotations| >= 2 && |c.times| <= |c.localRotations| && StrictlyIncreasing(c.times)
  }

  /** `t` reduced modulo `timeLength` into [0, timeLength). */
  function Wrap(t: real, timeLength: real): real
    requires timeLength > 0.0
  {
    t - timeLength * ((t / timeLength).Floor as real)
  }

  // ---------------------------------------------------------------------------
  // Real-arithmetic helpers. These are proof steps only and model nothing of
  // the lookup; the lemmas below them state what the lookup means.

  /** Multiplying by a positive factor keeps the order. */
  lemma MulMonotone(x: real, y: real, c: real)
    requires c > 0.0 && x <= y
    ensures x * c <= y * c
    ensures x < y ==> x * c < y * c
  {
  }

  /** Dividing and multiplying back by a non-zero factor is the identity. */
  lemma DivMulCancel(a: real, d: real)
    requires d != 0.0
    ensures (a / d) * d == a
  {
  }

  /** Dividing by a positive factor keeps the order. */
  lemma DivMonotone(a: real, b: real, d: real)
    requires d > 0.0 && a <= b
    ensures a / d <= b / d
    ensures a < b ==> a / d < b / d
  {
    DivMulCancel(a, d);
    DivMulCancel(b, d);
    assert (b / d - a / d) * d == b - a;
  }

  /** A quotient of a part by its positive whole lies in [0, 1]. */
  lemma FractionInUnit(n: real, d: real)
    requires 0.0 <= n <= d && d > 0.0
    ensures 0.0 <= n / d <= 1.0
  {
    DivMonotone(0.0, n, d);
    DivMonotone(n, d, d);
  }

  /** Shifting the dividend by whole periods shifts the quotient by the count. */
  lemma DivShift(t: real, d: real, k: real)
    requires d != 0.0
    ensures (t + k * d) / d == t / d + k
  {
    DivMulCancel(t + k * d, d);
    DivMulCancel(t, d);
    assert (t / d + k) * d == t + k * d;
  }

  /** `Floor` is the unique integer within one below its argument. */
  lemma FloorUnique(v: real, n: int)
    requires n as real <= v < n as real + 1.0
    ensures v.Floor == n
  {
  }

  /** Removing `f + k` periods from `t` shifted by `k` periods removes `f` periods from `t`. */
  lemma PeriodAlgebra(t: real, timeLength: real, f: real, k: real)
    ensures (t + k * timeLength) - timeLength * (f + k) == t - timeLength * f
  {
  }

  /** A non-zero number divided by itself is one. */
  lemma SelfRatio(d: real)
    requires d != 0.0
    ensures d / d == 1.0
  {
  }

  // ---------------------------------------------------------------------------
  // Wrapping a time into the clip

  /** The wrapped time lies in [0, timeLength) and differs from `t` by whole periods. */
  lemma WrapRange(t: real, timeLength: real)
    requires timeLength > 0.0
    ensures 0.0 <= Wrap(t, timeLength) < timeLength
    ensures Wrap(t, timeLength) == t - timeLength * ((t / timeLength).Floor as real)
  {
    var f := (t / timeLength).Floor;
    DivMulCancel(t, timeLength);
    MulMonotone(f as real, t / timeLength, timeLength);
    MulMonotone(t / timeLength, f as real + 1.0, timeLength);
  }

  /** Adding whole periods does not change the wrapped time. */
  lemma WrapPeriodic(t: real, timeLength: real, k: int)
    requires timeLength > 0.0
    ensures Wrap(t + (k as real) * timeLength, timeLength) == Wrap(t, timeLength)
  {
    var q := t / timeLength;
    var f := q.Floor;
    var u := t + (k as real) * timeLength;
    DivShift(t, timeLength, k as real);
    assert u / timeLength == q + k as real;
    FloorUnique(u / timeLength, f + k);
    PeriodAlgebra(t, timeLength, f as real, k as real);
  }

  /** A time already inside the clip is left as it is. */
  lemma WrapInside(t: real, timeLength: real)
    requires 0.0 <= t < timeLength
    ensures Wrap(t, timeLength) == t
  {
    DivMonotone(0.0, t, timeLength);
    DivMonotone(t, timeLength, timeLength);
    assert timeLength / timeLength == 1.0;
    FloorUnique(t / timeLength, 0);
  }

  /**
   * The lowest interval index at or after `h` whose key times bracket `t`
   * (both ends inclusive), or -1 when none does.
   */
  function FirstBracket(times: seq<real>, t: real, h: nat): (r: int)
    ensures r == -1 || (h <= r < |times| - 1 && times[r] <= t <= times[r + 1])
    ensures r >= 0 ==> forall k :: h <= k < r ==> !(times[k] <= t <= times[k + 1])
    ensures r == -1 <==> forall k :: h <= k < |times| - 1 ==> !(times[k] <= t <= times[k + 1])
    decreases |times| - h
  {
    if h + 1 >= |times| then -1
    else if t < times[h] || t > times[h + 1] then FirstBracket(times, t, h + 1)
    else h
  }

  /**
   * The interval and weight for an already wrapped time `t`: the first
   * bracketing interval with the linear weight of `t` between its ends, or
   * interval 0 at weight 0 when no interval brackets `t`.
   */
  function TimeIndexAt(times: seq<real>, t: real): TimeIndex
    requires StrictlyIncreasing(times)
  {
    var r := FirstBracket(times, t, 0);
    if r < 0 then TimeIndex(0, 0.0)
    else TimeIndex(r, (t - times[r]) / (times[r + 1] - times[r]))
  }

  /** The scan stops at the first interval that brackets the time. */
  lemma BracketFound(times: seq<real>, t: real, h: nat)
    requires StrictlyIncreasing(times) && h < |times| - 1 && times[h] <= t <= times[h + 1]
    requires FirstBracket(times, t, h) == FirstBracket(times, t, 0)
    ensures TimeIndexAt(times, t) == TimeIndex(h, (t - times[h]) / (times[h + 1] - times[h]))
  {
  }

  /**
   * What the lookup means: when some interval brackets `t`, the result is the
   * lowest such interval, the weight is in [0, 1] and places `t` between its
   * ends; otherwise the result is interval 0 at weight 0.
   */
  lemma TimeIndexMeaning(times: seq<real>, t: real)
    requires StrictlyIncreasing(times)
    ensures var ti := TimeIndexAt(times, t);
      if exists k :: 0 <= k < |times| - 1 && times[k] <= t <= times[k + 1] then
        && ti.index < |times| - 1
        && times[ti.index] <= t <= times[ti.index + 1]
        && (forall k :: 0 <= k < ti.index ==> !(times[k] <= t <= times[k + 1]))
        && 0.0 <= ti.rate <= 1.0
        && Lerp(times[ti.index], times[ti.index + 1], ti.rate) == t
      else
        ti == TimeIndex(0, 0.0)
  {
    var r := FirstBracket(times, t, 0);
    if r >= 0 {
      var ti := TimeIndexAt(times, t);
      assert ti.index == r;
      RateMeaning(times[ti.index], times[ti.index + 1], t, ti.rate);
    } else {
      assert TimeIndexAt(times, t) == TimeIndex(0, 0.0);
    }
  }

  /** The point at weight `rate` on the way from `lo` to `hi`. */
  function Lerp(lo: real, hi: real, rate: real): real
  {
    lo + rate * (hi - lo)
  }

  /** The weight of `t` between `lo` and `hi` lies in [0, 1] and places `t` back between them. */
  lemma RateMeaning(lo: real, hi: real, t: real, rate: real)
    requires lo < hi && lo <= t <= hi && rate == (t - lo) / (hi - lo)
    ensures 0.0 <= rate <= 1.0
    ensures Lerp(lo, hi, rate) == t
  {
    DivMulCancel(t - lo, hi - lo);
    FractionInUnit(t - lo, hi - lo);
  }

  /**
   * Any time between the first and the last key is bracketed, so the
   * fallback is only taken outside the keyed span.
   */
  lemma {:induction false} InsideSpanIsBracketed(times: seq<real>, t: real, h: nat)
    requires h < |times| - 1 && times[h] <= t <= times[|times| - 1]
    ensures FirstBracket(times, t, h) >= 0
    decreases |times| - h
  {
    if t > times[h + 1] {
      InsideSpanIsBracketed(times, t, h + 1);
    }
  }

  /**
   * At the key time of key `h >= 1` the lookup lands at the end of the
   * interval before it (weight 1), and at the first key time at the start of
   * interval 0 (weight 0).
   */
  lemma AtKeyTime(times: seq<real>, h: nat)
    requires StrictlyIncreasing(times) && 2 <= |times| && h < |times|
    ensures h >= 1 ==> TimeIndexAt(times, times[h]) == TimeIndex(h - 1, 1.0)
    ensures h == 0 ==> TimeIndexAt(times, times[h]) == TimeIndex(0, 0.0)
  {
    if h >= 1 {
      AtLaterKeyTime(times, h);
    } else {
      assert times[0] < times[1];
      assert FirstBracket(times, times[0], 0) == 0;
    }
  }

  lemma AtLaterKeyTime(times: seq<real>, h: nat)
    requires StrictlyIncreasing(times) && 1 <= h < |times|
    ensures TimeIndexAt(times, times[h]) == TimeIndex(h - 1, 1.0)
  {
    var t := times[h];
    var r := FirstBracket(times, t, 0);
    assert times[h - 1] < t;
    assert r != -1;
    assert r == h - 1 by {
      if r < h - 1 {
        SortedBelow(times, r + 1, h);
      }
    }
    assert times[r + 1] == t;
    SelfRatio(t - times[r]);
  }

  /** Sorted keys are ordered between any two positions. */
  lemma {:induction false} SortedBelow(times: seq<real>, i: nat, j: nat)
    requires StrictlyIncreasing(times) && i <= j < |times|
    ensures times[i] <= times[j]
    ensures i < j ==> times[i] < times[j]
    decreases j - i
  {
    if i < j {
      SortedBelow(times, i + 1, j);
    }
  }

  /**
   * The time correction of the lookup: whole periods are added while the
   * time is negative, then the float remainder by the period is taken.
   */
  method WrapTime(time: real, timeLength: real) returns (t: real)
    requires timeLength > 0.0
    ensures t == Wrap(time, timeLength)
  {
    t := time;
    ghost var k: int := 0;
    while t < 0.0
      invariant t == time + (k as real) * timeLength
      decreases PeriodsBelowZero(t, timeLength)
    {
      PeriodsBelowZeroStep(t, timeLength);
      t := t + timeLength;
      k := k + 1;
    }
    WrapPeriodic(time, timeLength, k);
    RemainderOfNonNegative(t, timeLength);
    t := FloatRem(t, timeLength);
  }

  /** How many whole periods a negative time lies below zero, rounded up; 0 for a non-negative time. */
  function PeriodsBelowZero(t: real, timeLength: real): int
    requires timeLength > 0.0
  {
    if t < 0.0 then (-t / timeLength).Floor + 1 else 0
  }

  /** Adding one period to a negative time brings it one period closer to zero. */
  lemma PeriodsBelowZeroStep(t: real, timeLength: real)
    requires timeLength > 0.0 && t < 0.0
    ensures 0 <= PeriodsBelowZero(t + timeLength, timeLength) < PeriodsBelowZero(t, timeLength)
  {
    DivShift(-t, timeLength, -1.0);
    DivMonotone(0.0, -t, timeLength);
    assert -(t + timeLength) == -t + -1.0 * timeLength;
  }

  /** On a non-negative time the float remainder is the wrap. */
  lemma RemainderOfNonNegative(t: real, timeLength: real)
    requires timeLength > 0.0 && t >= 0.0
    ensures FloatRem(t, timeLength) == Wrap(t, timeLength)
  {
    DivMonotone(0.0, t, timeLength);
  }

  /**
   * The time lookup: wraps `time` into the clip, then scans the intervals in
   * order and stops at the first that brackets it.
   */
  method GetTimeIndex(curve: CurveData, time: real, timeLength: real) returns (index: nat, rate: real)
    requires timeLength > 0.0 && StrictlyIncreasing(curve.times)
    ensures TimeIndex(index, rate) == TimeIndexAt(curve.times, Wrap(time, timeLength))
  {
    var t := WrapTime(time, timeLength);
    var times := curve.times;
    var h := 0;
    while h < |times| - 1
      invariant h == 0 || h <= |times| - 1
      invariant FirstBracket(times, t, h) == FirstBracket(times, t, 0)
    {
      if t < times[h] || t > times[h + 1] {
        h := h + 1;
        continue;
      }
      BracketFound(times, t, h);
      index := h;
      rate := (t - times[h]) / (times[h + 1] - times[h]);
      return;
    }
    index := 0;
    rate := 0.0;
  }

  /**
   * The rotation of the curve at `time`: the spherical interpolation between
   * the two keys of the interval the wrapped time falls in.
   */
  function LocalRotationAt(c: CurveData, time: real, timeLength: real): Quaternion
    requires timeLength > 0.0 && Sampleable(c)
  {
    var ti := TimeIndexAt(c.times, Wrap(time, timeLength));
    Slerp(c.localRotations[ti.index], c.localRotations[ti.index + 1], ti.rate)
  }

  method GetLocalRotation(curve: CurveData, time: real, timeLength: real) returns (q: Quaternion)
    requires timeLength > 0.0 && Sampleable(curve)
    ensures q == LocalRotationAt(curve, time, timeLength)
  {
    var index, rate := GetTimeIndex(curve, time, timeLength);
    q := Slerp(curve.localRotations[index + 0], curve.localRotations[index + 1], rate);
  }

  /** A curve repeats with the clip: shifting the time by whole clip lengths changes nothing. */
  lemma LocalRotationPeriodic(c: CurveData, time: real, timeLength: real, k: int)
    requires timeLength > 0.0 && Sampleable(c)
    ensures LocalRotationAt(c, time + (k as real) * timeLength, timeLength) == LocalRotationAt(c, time, timeLength)
  {
    WrapPeriodic(time, timeLength, k);
  }

  /**
   * Every sample is an interpolation between two consecutive keys of the
   * curve, at a weight in [0, 1].
   */
  lemma LocalRotationBetweenKeys(c: CurveData, time: real, timeLength: real)
    requires timeLength > 0.0 && Sampleable(c)
    ensures exists i: nat, w: real {:trigger Slerp(c.localRotations[i], c.localRotations[i + 1], w)} ::
              && i + 1 < |c.localRotations| && 0.0 <= w <= 1.0
              && LocalRotationAt(c, time, timeLength) == Slerp(c.localRotations[i], c.localRotations[i + 1], w)
  {
    var ti := TimeIndexAt(c.times, Wrap(time, timeLength));
    TimeIndexMeaning(c.times, Wrap(time, timeLength));
    assert LocalRotationAt(c, time, timeLength)
        == Slerp(c.localRotations[ti.index], c.localRotations[ti.index + 1], ti.rate);
  }

  // ---------------------------------------------------------------------------
  // The lookup as evidently intended for a single-key curve

  /**
   * A curve the corrected lookup can read: a single key (a constant, for any
   * clip length), or a curve the interpolating lookup can read inside a clip
   * of positive length.
   */
  ghost predicate Readable(c: CurveData, timeLength: real)
  {
    || (|c.localRotations| == 1 && |c.times| <= 1)
    || (timeLength > 0.0 && Sampleable(c))
  }

  /**
   * The rotation of the curve at `time` as evidently intended: a curve with a
   * single key is that constant; any other curve interpolates as before.
   */
  function SampleRotation(c: CurveData, time: real, timeLength: real): Quaternion
    requires Readable(c, timeLength)
  {
    if |c.localRotations| == 1 then c.localRotations[0] else LocalRotationAt(c, time, timeLength)
  }

  /** A single-key curve ignores the time, whatever the clip length. */
  lemma SampleRotationConstant(c: CurveData, t1: real, t2: real, timeLength: real)
    requires |c.localRotations| == 1 && |c.times| <= 1
    ensures SampleRotation(c, t1, timeLength) == SampleRotation(c, t2, timeLength) == c.localRotations[0]
  {
  }

  /** On a curve of at least two keys the corrected lookup is the interpolating one. */
  lemma SampleRotationAgrees(c: CurveData, time: real, timeLength: real)
    requires timeLength > 0.0 && Sampleable(c)
    ensures SampleRotation(c, time, timeLength) == LocalRotationAt(c, time, timeLength)
  {
  }

  /** The corrected lookup repeats with the clip. */
  lemma SampleRotationPeriodic(c: CurveData, time: real, timeLength: real, k: int)
    requires timeLength > 0.0 && Readable(c, timeLength)
    ensures SampleRotation(c, time + (k as real) * timeLength, timeLength) == SampleRotation(c, time, timeLength)
  {
    if |c.localRotations| != 1 {
      LocalRotationPeriodic(c, time, timeLength, k);
    }
  }

  /** The corrected lookup: the single key of a constant curve, else the interpolating lookup. */
  method GetSampledRotation(curve: CurveData, time: real, timeLength: real) returns (q: Quaternion)
    requires Readable(curve, timeLength)
    ensures q == SampleRotation(curve, time, timeLength)
  {
    if |curve.localRotations| == 1 {
      return curve.localRotations[0];
    }
    q := GetLocalRotation(curve, time, timeLength);
  }

  /**
   * As written, a curve with a single key cannot be looked up: no interval
   * brackets any time, the fallback picks interval 0, and the second key it
   * interpolates towards lies past the end of the rotations.
   */
  lemma SingleKeyLookupReadsPastEnd(c: CurveData, time: real, timeLength: real)
    requires timeLength > 0.0 && |c.localRotations| == 1 && |c.times| == 1
    ensures !Sampleable(c)
    ensures TimeIndexAt(c.times, Wrap(time, timeLength)) == TimeIndex(0, 0.0)
    ensures TimeIndexAt(c.times, Wrap(time, timeLength)).index + 1 == |c.localRotations|
  {
    assert FirstBracket(c.times, Wrap(time, timeLength), 0) == -1;
  }
}
