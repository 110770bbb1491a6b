/** Training-stress metrics (src/metrics.rs): power TSS, intensity factor,
    variability index, heart-rate TSS by ten zones, and the exponentially
    weighted CTL/ATL/TSB training loads. */
module Metrics {
  import opened Prelude
  import opened Floats
  import opened Measurements

  /** Training Stress Score (an i64 wrapper). */
  datatype Tss = Tss(value: int)

  /** Accumulated TSS of one calendar day; dates are day numbers. */
  datatype DailyTss = DailyTss(date: int, tss: Tss)

  datatype Ctl = Ctl(value: real)
  datatype Atl = Atl(value: real)
  datatype Tsb = Tsb(value: real)

  // ---------------------------------------------------------------------------
  // Intensity factor, variability index and power-based TSS

  /** IF = NP / FTP in f64. */
  function CalcIntensityFactor(ftp: Power, normalizedPower: Power): (r: F64)
    ensures ftp.watts != 0 ==> r == Finite(normalizedPower.watts as real / ftp.watts as real)
    ensures ftp.watts == 0 ==> !r.Finite?
  {
    Div(FromInt(normalizedPower.watts), FromInt(ftp.watts))
  }

  /** VI = NP / average power in f64. */
  function CalcVariabilityIndex(normalizedPower: Power, averagePower: Power): (r: F64)
    ensures averagePower.watts != 0 ==>
      r == Finite(normalizedPower.watts as real / averagePower.watts as real)
    ensures averagePower.watts == 0 ==> !r.Finite?
  {
    Div(FromInt(normalizedPower.watts), FromInt(averagePower.watts))
  }

  /** TSS = (duration * NP * IF) / (FTP * 3600) * 100, computed in f64 and
      cast back with `as i64`. With FTP 0 the chain ends in an infinity (the
      cast saturates) or NaN (the cast gives 0); `TssClosedForm` covers every
      other FTP. */
  function TssCalculate(ftp: Power, duration: I64, normalizedPower: Power): (r: Tss)
    ensures ftp.watts == 0 ==>
      r == Tss(if duration == 0 || normalizedPower.watts == 0 then 0
               else if duration > 0 then I64Max else I64Min)
  {
    var intensityFactor := CalcIntensityFactor(ftp, normalizedPower);
    var d := FromInt(duration);
    Tss(ToI64(
      Mul(Div(Mul(Mul(d, FromInt(normalizedPower.watts)), intensityFactor),
              Mul(FromInt(ftp.watts), Finite(3600.0))),
          Finite(100.0))))
  }

  /** The closed form of power TSS: 100 * d * NP^2 / (3600 * FTP^2), truncated. */
  function TssReal(ftp: int, duration: int, np: int): real
    requires ftp != 0
  {
    100.0 * (duration as real) * (np as real) * (np as real)
      / (3600.0 * (ftp as real) * (ftp as real))
  }

  lemma TssClosedForm(ftp: Power, duration: I64, normalizedPower: Power)
    requires ftp.watts != 0
    ensures TssCalculate(ftp, duration, normalizedPower)
         == Tss(ToI64(Finite(TssReal(ftp.watts, duration, normalizedPower.watts))))
  {
    var f, d, n := ftp.watts as real, duration as real, normalizedPower.watts as real;
    var a := Mul(FromInt(duration), FromInt(normalizedPower.watts));
    assert a == Finite(d * n);
    var b := Mul(a, CalcIntensityFactor(ftp, normalizedPower));
    assert b == Finite(d * n * (n / f));
    var c := Mul(FromInt(ftp.watts), Finite(3600.0));
    assert c == Finite(f * 3600.0);
    var e := Div(b, c);
    assert e == Finite(d * n * (n / f) / (f * 3600.0));
    TssRealIdentity(f, d, n);
    var g := Mul(e, Finite(100.0));
    assert g == Finite(d * n * (n / f) / (f * 3600.0) * 100.0);
    assert g == Finite(TssReal(ftp.watts, duration, normalizedPower.watts));
  }

  lemma TssRealIdentity(f: real, d: real, n: real)
    requires f != 0.0
    ensures d * n * (n / f) / (f * 3600.0) * 100.0 == 100.0 * d * n * n / (3600.0 * f * f)
  {
    var k := NonZeroDenominator(f);
    var i := n / f;
    assert i * f == n;
    var m := f * 3600.0;
    var e := d * n * i / m;
    assert e * m == d * n * i;
    var lhs := e * 100.0;
    var top := 100.0 * d * n * n;
    var rhs := top / k;
    assert rhs * k == top;
    calc {
      lhs * k;
      == 100.0 * f * (e * m);
      == 100.0 * f * (d * n * i);
      == 100.0 * d * n * (i * f);
      == top;
    }
    CancelFactor(lhs, rhs, k);
  }

  /** The TSS denominator 3600 * FTP^2 is non-zero for a non-zero FTP. */
  lemma NonZeroDenominator(f: real) returns (k: real)
    requires f != 0.0
    ensures k == 3600.0 * f * f && k != 0.0
  {
    var a := 3600.0 * f;
    NonZeroProduct(a, f);
    k := a * f;
  }

  lemma NonZeroProduct(a: real, b: real)
    requires a != 0.0 && b != 0.0
    ensures a * b != 0.0
  {
  }

  lemma CancelFactor(x: real, y: real, k: real)
    requires k != 0.0 && x * k == y * k
    ensures x == y
  {
    assert (x - y) * k == 0.0;
  }

  /** IF is exactly 1 when NP equals a non-zero FTP. */
  lemma IntensityFactorAtThreshold(ftp: Power, normalizedPower: Power)
    requires ftp.watts != 0
    ensures CalcIntensityFactor(ftp, normalizedPower) == Finite(1.0) <==> normalizedPower == ftp
  {
    var f, n := ftp.watts as real, normalizedPower.watts as real;
    if n / f == 1.0 {
      assert n == (n / f) * f;
    }
  }

  /** The closed form at NP == FTP: d seconds score d / 36. */
  lemma ScaledRatio(ftp: int, duration: int)
    requires ftp != 0
    ensures TssReal(ftp, duration, ftp) == duration as real / 36.0
  {
    var f, c := ftp as real, duration as real;
    var k := NonZeroDenominator(f);
    var top := 100.0 * c * f * f;
    var lhs := top / k;
    assert lhs * k == top;
    var q := c / 36.0;
    assert q * 36.0 == c;
    calc {
      q * k;
      == (q * 36.0) * (100.0 * f * f);
      == c * (100.0 * f * f);
      == top;
    }
    CancelFactor(lhs, q, k);
  }

  /** One hour at NP == FTP scores exactly 100, whatever the FTP. */
  lemma TssOneHourAtThreshold(ftp: Power)
    requires ftp.watts != 0
    ensures TssCalculate(ftp, 3600, ftp) == Tss(100)
  {
    TssClosedForm(ftp, 3600, ftp);
    ScaledRatio(ftp.watts, 3600);
    assert Trunc(3600.0 / 36.0) == 100;
  }

  /** Ninety minutes at NP == FTP scores 150. */
  lemma TssNinetyMinutesAtThreshold(ftp: Power)
    requires ftp.watts != 0
    ensures TssCalculate(ftp, 5400, ftp) == Tss(150)
  {
    TssClosedForm(ftp, 5400, ftp);
    ScaledRatio(ftp.watts, 5400);
    assert Trunc(5400.0 / 36.0) == 150;
  }

  /** Four hours at half the threshold power scores 100: TSS goes with the
      square of the intensity and linearly with time. */
  lemma TssFourHoursAtHalfThreshold(half: int)
    requires half != 0 && I64Min <= 2 * half <= I64Max
    ensures TssCalculate(Power(2 * half), 14400, Power(half)) == Tss(100)
  {
    TssClosedForm(Power(2 * half), 14400, Power(half));
    HalfThresholdRatio(half);
    assert Trunc(100.0) == 100;
  }

  lemma HalfThresholdRatio(half: int)
    requires half != 0
    ensures TssReal(2 * half, 14400, half) == 100.0
  {
    var h := half as real;
    var f := (2 * half) as real;
    assert f == 2.0 * h;
    var k := NonZeroDenominator(f);
    var top := 100.0 * 14400.0 * h * h;
    var lhs := top / k;
    assert lhs * k == top;
    var hh := h * h;
    assert f * f == 4.0 * hh;
    calc {
      100.0 * k;
      == 100.0 * 3600.0 * (f * f);
      == 100.0 * 3600.0 * (4.0 * hh);
      == top;
    }
    CancelFactor(lhs, 100.0, k);
    assert TssReal(2 * half, 14400, half) == lhs;
  }

  // ---------------------------------------------------------------------------
  // Heart-rate TSS

  /** The nine zone boundaries: 73, 77, 81, 85, 89 and 93 percent of FTHr
      (integer arithmetic, truncated), FTHr itself, then 103 and 106 percent. */
  function ZoneThresholds(fthr: int): (th: seq<int>)
    ensures |th| == 9 && th[6] == fthr
  {
    [TruncDiv(fthr * 73, 100), TruncDiv(fthr * 77, 100), TruncDiv(fthr * 81, 100),
     TruncDiv(fthr * 85, 100), TruncDiv(fthr * 89, 100), TruncDiv(fthr * 93, 100),
     fthr, TruncDiv(fthr * 103, 100), TruncDiv(fthr * 106, 100)]
  }

  /** Per-second weight of each of the ten zones. */
  const ZoneWeights: seq<int> := [20, 30, 40, 50, 60, 75, 100, 105, 110, 120]

  /** The zone of one sample: the first boundary it is strictly below, or the
      tenth zone when it is at or above all nine. */
  function Zone(hr: int, th: seq<int>): (z: nat)
    requires |th| == 9
    ensures z < 10
    ensures z < 9 ==> hr < th[z]
    ensures forall j :: 0 <= j < z ==> th[j] <= hr
  {
    if hr < th[0] then 0
    else if hr < th[1] then 1
    else if hr < th[2] then 2
    else if hr < th[3] then 3
    else if hr < th[4] then 4
    else if hr < th[5] then 5
    else if hr < th[6] then 6
    else if hr < th[7] then 7
    else if hr < th[8] then 8
    else 9
  }

  /** Each sample lies in exactly one zone: any zone index with the
      "first boundary strictly above" property is the one Zone computes. */
  lemma ZoneUnique(hr: int, th: seq<int>, z: nat)
    requires |th| == 9 && z < 10
    requires z < 9 ==> hr < th[z]
    requires forall j :: 0 <= j < z ==> th[j] <= hr
    ensures Zone(hr, th) == z
  {
  }

  /** The ten zone counters after folding over the samples. */
  function ZoneCounts(th: seq<int>, data: seq<HeartRate>): (counts: seq<int>)
    requires |th| == 9
    ensures |counts| == 10
  {
    if |data| == 0 then [0, 0, 0, 0, 0, 0, 0, 0, 0, 0]
    else
      var counts := ZoneCounts(th, data[..|data| - 1]);
      var z := Zone(data[|data| - 1].bpm, th);
      counts[z := counts[z] + 1]
  }

  function WeightedSum(c: seq<int>): int
    requires |c| == 10
  {
    c[0] * 20 + c[1] * 30 + c[2] * 40 + c[3] * 50 + c[4] * 60
      + c[5] * 75 + c[6] * 100 + c[7] * 105 + c[8] * 110 + c[9] * 120
  }

  function Sum10(c: seq<int>): int
    requires |c| == 10
  {
    c[0] + c[1] + c[2] + c[3] + c[4] + c[5] + c[6] + c[7] + c[8] + c[9]
  }

  /** hrTSS: the weighted zone counts divided by 3600, truncated. It is the
      sum of the per-sample weights over 3600, between 20 and 120 points per
      hour of samples; an empty series scores 0. */
  function HrTssOf(fthr: HeartRate, data: seq<HeartRate>): (r: Tss)
    ensures r.value == Sum(SampleWeights(ZoneThresholds(fthr.bpm), data)) / 3600
    ensures 20 * |data| / 3600 <= r.value <= 120 * |data| / 3600
  {
    var th := ZoneThresholds(fthr.bpm);
    var w := SampleWeights(th, data);
    ZoneCountsWeighted(th, data);
    SampleWeightsBetween(th, data);
    SumBounds(w, 20, 120);
    DivMonotone(20 * |data|, Sum(w), 3600);
    DivMonotone(Sum(w), 120 * |data|, 3600);
    Tss(TruncDiv(WeightedSum(ZoneCounts(th, data)), 3600))
  }

  /** The per-second weight of every sample, each by its own zone. */
  function SampleWeights(th: seq<int>, data: seq<HeartRate>): (w: seq<int>)
    requires |th| == 9
    ensures |w| == |data|
    ensures forall i :: 0 <= i < |data| ==> w[i] == ZoneWeights[Zone(data[i].bpm, th)]
  {
    seq(|data|, i requires 0 <= i < |data| => ZoneWeights[Zone(data[i].bpm, th)])
  }

  lemma BumpZone(c: seq<int>, z: nat)
    requires |c| == 10 && z < 10
    ensures Sum10(c[z := c[z] + 1]) == Sum10(c) + 1
  {
  }

  lemma BumpZoneWeighted(c: seq<int>, z: nat)
    requires |c| == 10 && z < 10
    ensures WeightedSum(c[z := c[z] + 1]) == WeightedSum(c) + ZoneWeights[z]
  {
  }

  /** The zones partition the samples: the ten counts add up to the number of
      samples. */
  lemma {:induction false} ZoneCountsPartition(th: seq<int>, data: seq<HeartRate>)
    requires |th| == 9
    ensures Sum10(ZoneCounts(th, data)) == |data|
  {
    if |data| > 0 {
      var prefix := data[..|data| - 1];
      ZoneCountsPartition(th, prefix);
      BumpZone(ZoneCounts(th, prefix), Zone(data[|data| - 1].bpm, th));
    }
  }

  /** The weighted zone count is the sum of every sample's own zone weight. */
  lemma {:induction false} ZoneCountsWeighted(th: seq<int>, data: seq<HeartRate>)
    requires |th| == 9
    ensures WeightedSum(ZoneCounts(th, data)) == Sum(SampleWeights(th, data))
  {
    if |data| > 0 {
      var prefix := data[..|data| - 1];
      ZoneCountsWeighted(th, prefix);
      BumpZoneWeighted(ZoneCounts(th, prefix), Zone(data[|data| - 1].bpm, th));
      assert SampleWeights(th, data)[..|data| - 1] == SampleWeights(th, prefix);
    }
  }

  /** Every zone weighs between 20 and 120 points per hour. */
  lemma SampleWeightsBetween(th: seq<int>, data: seq<HeartRate>)
    requires |th| == 9
    ensures forall i :: 0 <= i < |data| ==> 20 <= SampleWeights(th, data)[i] <= 120
  {
    var w := SampleWeights(th, data);
    forall i | 0 <= i < |w| ensures 20 <= w[i] <= 120 {
      var z := Zone(data[i].bpm, th);
      assert 20 <= ZoneWeights[z] <= 120;
    }
  }

  lemma DivMonotone(a: int, b: int, d: int)
    requires 0 <= a <= b && d > 0
    ensures a / d <= b / d
  {
    if a / d > b / d {
      MulMonotone(b / d + 1, a / d, d);
    }
  }

  /** `TSS::calculate_hr_tss`: classify every sample into its zone, counting in
      ten counters, then weight the counts. */
  method CalculateHrTss(fthr: HeartRate, heartRateData: seq<HeartRate>) returns (tss: Tss)
    ensures tss == HrTssOf(fthr, heartRateData)
  {
    var zones := ZoneThresholds(fthr.bpm);
    var counts := new int[10](_ => 0);
    assert counts[..] == ZoneCounts(zones, []);
    var i := 0;
    while i < |heartRateData|
      invariant 0 <= i <= |heartRateData|
      invariant counts.Length == 10
      invariant counts[..] == ZoneCounts(zones, heartRateData[..i])
    {
      var z := Zone(heartRateData[i].bpm, zones);
      counts[z] := counts[z] + 1;
      assert heartRateData[..i + 1][..i] == heartRateData[..i];
      i := i + 1;
    }
    assert heartRateData[..i] == heartRateData;
    tss := Tss(TruncDiv(WeightedSum(counts[..]), 3600));
  }

  // ---------------------------------------------------------------------------
  // Training loads

  /** e^(-1/k) by its (2,2) Pade approximant (12k^2 - 6k + 1) / (12k^2 + 6k + 1),
      which agrees with the exponential to within 1e-7 for k = 7 and k = 42. */
  function ExpNegInverse(k: int): (f: real)
    requires k >= 1
    ensures 0.0 < f < 1.0
  {
    var kk := k * k;
    assert kk >= k by { MulMonotone(1, k, k); }
    var num := 12 * kk - 6 * k + 1;
    var den := 12 * kk + 6 * k + 1;
    assert 0 < num < den;
    (num as real) / (den as real)
  }

  /** Yesterday's load decayed, plus today's TSS weighted by the impact factor.
      With equal decay and impact constants the new load is a convex
      combination of yesterday's load and today's TSS, so it lies between the
      two. */
  function CalcTrainingLoad(decayConst: int, impactConst: int, yesterdaysLoad: real, dailyTss: DailyTss): (r: real)
    requires decayConst >= 1 && impactConst >= 1
    ensures var t := dailyTss.tss.value as real;
            decayConst == impactConst ==>
              && (yesterdaysLoad <= t ==> yesterdaysLoad <= r <= t)
              && (t <= yesterdaysLoad ==> t <= r <= yesterdaysLoad)
  {
    var decayFactor := ExpNegInverse(decayConst);
    var impactFactor := 1.0 - ExpNegInverse(impactConst);
    var t := dailyTss.tss.value as real;
    Regroup(yesterdaysLoad, t, decayFactor);
    ConvexStep(yesterdaysLoad, t, decayFactor);
    yesterdaysLoad * decayFactor + t * impactFactor
  }

  lemma Regroup(y: real, t: real, f: real)
    ensures y * f + t * (1.0 - f) == t + (y - t) * f
  {
  }

  /** t + (y - t) * f lies between y and t for a factor f in [0, 1]. */
  lemma ConvexStep(y: real, t: real, f: real)
    requires 0.0 <= f <= 1.0
    ensures y <= t ==> y <= t + (y - t) * f <= t
    ensures t <= y ==> t <= t + (y - t) * f <= y
  {
    var d := y - t;
    var g := d * f;
    assert g == (y - t) * f;
    if d <= 0.0 {
      var a := -d;
      ScaleBelow(a, f);
      NegMul(d, f);
      assert g == -(a * f);
    } else {
      ScaleBelow(d, f);
    }
  }

  lemma NegMul(d: real, f: real)
    ensures d * f == -((-d) * f)
  {
  }

  /** Scaling a non-negative amount by a factor in [0, 1] keeps it within [0, a]. */
  lemma ScaleBelow(a: real, f: real)
    requires a >= 0.0 && 0.0 <= f <= 1.0
    ensures 0.0 <= a * f <= a
  {
    assert a * (1.0 - f) >= 0.0;
  }

  /** Below today's TSS, the load strictly rises. */
  lemma TrainingLoadRises(k: int, yesterdaysLoad: real, dailyTss: DailyTss)
    requires k >= 1
    requires yesterdaysLoad < dailyTss.tss.value as real
    ensures yesterdaysLoad < CalcTrainingLoad(k, k, yesterdaysLoad, dailyTss)
  {
    var f := ExpNegInverse(k);
    var t := dailyTss.tss.value as real;
    var y := yesterdaysLoad;
    assert CalcTrainingLoad(k, k, y, dailyTss) == y * f + t * (1.0 - f);
    Regroup(y, t, f);
    var a, g := t - y, 1.0 - f;
    assert a * g > 0.0;
    assert t + (y - t) * f == y + a * g;
  }

  /** If yesterday's load already equals today's TSS, the load stays there. */
  lemma TrainingLoadFixedPoint(k: int, dailyTss: DailyTss)
    requires k >= 1
    ensures CalcTrainingLoad(k, k, dailyTss.tss.value as real, dailyTss) == dailyTss.tss.value as real
  {
  }

  /** A rest day (TSS 0) shrinks a non-negative load toward zero, strictly when
      it is positive. */
  lemma TrainingLoadRestDecays(decayConst: int, impactConst: int, yesterdaysLoad: real, date: int)
    requires decayConst >= 1 && impactConst >= 1
    requires yesterdaysLoad >= 0.0
    ensures var r := CalcTrainingLoad(decayConst, impactConst, yesterdaysLoad, DailyTss(date, Tss(0)));
            0.0 <= r <= yesterdaysLoad && (yesterdaysLoad > 0.0 ==> r < yesterdaysLoad)
  {
    var f := ExpNegInverse(decayConst);
    assert CalcTrainingLoad(decayConst, impactConst, yesterdaysLoad, DailyTss(date, Tss(0)))
        == yesterdaysLoad * f;
    if yesterdaysLoad > 0.0 {
      assert yesterdaysLoad * f < yesterdaysLoad * 1.0;
    }
  }

  /** Chronic Training Load: time constant 42 days. */
  function CtlCalculate(yesterday: Ctl, dailyTss: DailyTss): (r: Ctl)
    ensures var t := dailyTss.tss.value as real;
            && (yesterday.value <= t ==> yesterday.value <= r.value <= t)
            && (t <= yesterday.value ==> t <= r.value <= yesterday.value)
  {
    Ctl(CalcTrainingLoad(42, 42, yesterday.value, dailyTss))
  }

  /** Acute Training Load: time constant 7 days. */
  function AtlCalculate(yesterday: Atl, dailyTss: DailyTss): (r: Atl)
    ensures var t := dailyTss.tss.value as real;
            && (yesterday.value <= t ==> yesterday.value <= r.value <= t)
            && (t <= yesterday.value ==> t <= r.value <= yesterday.value)
  {
    Atl(CalcTrainingLoad(7, 7, yesterday.value, dailyTss))
  }

  /** Training Stress Balance: fitness minus fatigue. */
  function TsbCalculate(ctl: Ctl, atl: Atl): (r: Tsb)
    ensures r.value == ctl.value - atl.value
  {
    Tsb(ctl.value - atl.value)
  }

  /** One day at TSS 100 from a zero state: CTL is about 2.353, ATL about 13.31,
      and TSB about -10.96. */
  lemma FirstDayFromZero(date: int)
    ensures var ctl := CtlCalculate(Ctl(0.0), DailyTss(date, Tss(100)));
            var atl := AtlCalculate(Atl(0.0), DailyTss(date, Tss(100)));
            var tsb := TsbCalculate(ctl, atl);
            2.352 < ctl.value < 2.354 && 13.31 < atl.value < 13.32 && -10.97 < tsb.value < -10.95
  {
    assert ExpNegInverse(42) == 20917.0 / 21421.0;
    assert ExpNegInverse(7) == 547.0 / 631.0;
  }
}
