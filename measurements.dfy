/** Typed measurement values and their averaging (src/measurements.rs).
    Power, heart rate and work are i64 wrappers; altitude is an f64 wrapper,
    modelled here over the reals. */
module Measurements {
  import opened Prelude

  datatype Power = Power(watts: int)
  datatype HeartRate = HeartRate(bpm: int)
  datatype Work = Work(value: int)
  datatype Altitude = Altitude(meters: real)
  datatype AltitudeDiff = AltitudeDiff(meters: real)

  /** `Average for i64`: the sum divided by the length with Rust's truncating
      division, and None exactly when the slice is empty. */
  function Average(elems: seq<int>): (r: Option<int>)
    ensures r.None? <==> |elems| == 0
    ensures r.Some? && Sum(elems) >= 0 ==>
      r.value * |elems| <= Sum(elems) < r.value * |elems| + |elems|
    ensures r.Some? && Sum(elems) < 0 ==>
      r.value * |elems| - |elems| < Sum(elems) <= r.value * |elems|
  {
    if |elems| != 0 then Some(TruncDiv(Sum(elems), |elems|)) else None
  }

  /** The inner i64 values of a power series. */
  function Watts(elems: seq<Power>): (r: seq<int>)
    ensures |r| == |elems|
    ensures forall i :: 0 <= i < |elems| ==> r[i] == elems[i].watts
  {
    seq(|elems|, i requires 0 <= i < |elems| => elems[i].watts)
  }

  /** The inner i64 values of a heart-rate series. */
  function Bpms(elems: seq<HeartRate>): (r: seq<int>)
    ensures |r| == |elems|
    ensures forall i :: 0 <= i < |elems| ==> r[i] == elems[i].bpm
  {
    seq(|elems|, i requires 0 <= i < |elems| => elems[i].bpm)
  }

  /** `Average for Power`: the i64 average of the inner values, rewrapped. */
  function AveragePower(elems: seq<Power>): (r: Option<Power>)
    ensures r.None? <==> |elems| == 0
    ensures r.Some? ==> Average(Watts(elems)) == Some(r.value.watts)
  {
    if |elems| != 0 then Some(Power(TruncDiv(Sum(Watts(elems)), |elems|))) else None
  }

  /** `Average for HeartRate`: the i64 average of the inner values, rewrapped. */
  function AverageHeartRate(elems: seq<HeartRate>): (r: Option<HeartRate>)
    ensures r.None? <==> |elems| == 0
    ensures r.Some? ==> Average(Bpms(elems)) == Some(r.value.bpm)
  {
    if |elems| != 0 then Some(HeartRate(TruncDiv(Sum(Bpms(elems)), |elems|))) else None
  }

  /** `From<Power> for Work`: the unit change keeps the inner value. */
  function WorkFromPower(p: Power): (w: Work)
    ensures w.value == p.watts
  {
    Work(p.watts)
  }

  /** `From<Altitude> for AltitudeDiff`: the unit change keeps the inner value. */
  function AltitudeDiffFrom(a: Altitude): (d: AltitudeDiff)
    ensures d.meters == a.meters
  {
    AltitudeDiff(a.meters)
  }

  /** The derived `Add` of Work. */
  function AddWork(a: Work, b: Work): Work
  {
    Work(a.value + b.value)
  }

  /** The derived `Add` and `Sub` of AltitudeDiff. */
  function AddDiff(a: AltitudeDiff, b: AltitudeDiff): AltitudeDiff
  {
    AltitudeDiff(a.meters + b.meters)
  }

  function SubDiff(a: AltitudeDiff, b: AltitudeDiff): AltitudeDiff
  {
    AltitudeDiff(a.meters - b.meters)
  }

  /** The average of a non-empty slice of identical values is that value. */
  lemma AverageConstant(elems: seq<int>, c: int)
    requires |elems| > 0
    requires forall i :: 0 <= i < |elems| ==> elems[i] == c
    ensures Average(elems) == Some(c)
  {
    SumConstant(elems, c);
    TruncDivUnique(Sum(elems), |elems|, c);
  }

  /** The average of a non-empty slice lies within any bounds of its elements,
      in particular between its minimum and its maximum. */
  lemma AverageBounds(elems: seq<int>, lo: int, hi: int)
    requires |elems| > 0
    requires forall i :: 0 <= i < |elems| ==> lo <= elems[i] <= hi
    ensures lo <= Average(elems).value <= hi
  {
    var n, q := |elems|, Average(elems).value;
    SumBounds(elems, lo, hi);
    if q > hi {
      MulMonotone(hi + 1, q, n);
    }
    if q < lo {
      MulMonotone(q + 1, lo, n);
    }
  }

  lemma AveragePowerConstant(elems: seq<Power>, c: int)
    requires |elems| > 0
    requires forall i :: 0 <= i < |elems| ==> elems[i] == Power(c)
    ensures AveragePower(elems) == Some(Power(c))
  {
    AverageConstant(Watts(elems), c);
  }

  /** The average of non-negative samples is non-negative, and there the
      truncating division coincides with floor division. */
  lemma AverageNonNegative(elems: seq<int>)
    requires |elems| > 0
    requires forall i :: 0 <= i < |elems| ==> elems[i] >= 0
    ensures Average(elems) == Some(Sum(elems) / |elems|)
    ensures Average(elems).value >= 0
  {
    SumNonNegative(elems);
    var n, t := |elems|, Sum(elems);
    var q := TruncDiv(t, n);
    assert q == t / n;
    if q < 0 {
      MulMonotone(q + 1, 0, n);
    }
  }

  lemma {:induction false} SumNonNegative(elems: seq<int>)
    requires forall i :: 0 <= i < |elems| ==> elems[i] >= 0
    ensures Sum(elems) >= 0
  {
    if |elems| > 0 {
      SumNonNegative(elems[..|elems| - 1]);
    }
  }
}
