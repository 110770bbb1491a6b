/** Per-activity analysis (src/activity_analysis.rs; the same functions are
    repeated in src/metrics.rs): total work, rolling averages, Normalized
    Power, altitude gain and loss, peak performances, and the Option logic of
    `ActivityAnalysis::from_activity`.  Power TSS, IF, VI and heart-rate TSS
    are the Metrics members. */
module ActivityAnalysis {
  import opened Prelude
  import opened Floats
  import opened Measurements
  import opened Metrics
  import opened Peaks
  import opened Athlete

  // ---------------------------------------------------------------------------
  // Total work

  /** `calc_total_work`: every power sample converted to work and summed from
      Work(0), which is the sum of the inner power values. */
  function CalcTotalWork(powerData: seq<Power>): (r: Work)
    ensures r == Work(Sum(Watts(powerData)))
  {
    if |powerData| == 0 then Work(0)
    else
      var prefix := powerData[..|powerData| - 1];
      assert Watts(powerData)[..|powerData| - 1] == Watts(prefix);
      AddWork(CalcTotalWork(prefix), WorkFromPower(powerData[|powerData| - 1]))
  }

  /** A hundred samples at 260 W make 26000 units of work. */
  lemma ConstantEffortTotalWork(powerData: seq<Power>)
    requires |powerData| == 100
    requires forall i :: 0 <= i < |powerData| ==> powerData[i] == Power(260)
    ensures CalcTotalWork(powerData) == Work(26000)
  {
    SumConstant(Watts(powerData), 260);
  }

  // ---------------------------------------------------------------------------
  // Rolling averages and Normalized Power

  /** `rolling_averages(data, size)`: the average of every window of `size`
      consecutive samples (`windows(0)` panics, hence size >= 1). */
  function RollingAverages(data: seq<Power>, size: nat): (r: seq<Power>)
    requires size >= 1
    ensures |r| == if size <= |data| then |data| - size + 1 else 0
  {
    var count := if size <= |data| then |data| - size + 1 else 0;
    seq(count, i requires 0 <= i < count => AveragePower(data[i..i + size]).value)
  }

  /** The i-th rolling average is the truncated mean of data[i..i + size], and
      lies between any bounds of the samples. */
  lemma RollingAverageWindow(data: seq<Power>, size: nat, i: nat, lo: int, hi: int)
    requires size >= 1 && i + size <= |data|
    requires forall j :: 0 <= j < |data| ==> lo <= data[j].watts <= hi
    ensures Average(Watts(data[i..i + size])) == Some(RollingAverages(data, size)[i].watts)
    ensures lo <= RollingAverages(data, size)[i].watts <= hi
  {
    var w := Watts(data[i..i + size]);
    AverageBounds(w, lo, hi);
  }

  function Pow4(x: int): int
  {
    (x * x) * (x * x)
  }

  /** `x.pow(4)` over a series (i64 overflow is not modelled). */
  function Pow4s(data: seq<Power>): (r: seq<int>)
    ensures |r| == |data|
    ensures forall i :: 0 <= i < |data| ==> r[i] == Pow4(data[i].watts)
  {
    seq(|data|, i requires 0 <= i < |data| => Pow4(data[i].watts))
  }

  lemma MulLe(a: nat, b: nat, c: nat, d: nat)
    requires a <= b && c <= d
    ensures a * c <= b * d
  {
    if c > 0 {
      MulMonotone(a, b, c);
    }
    if b > 0 {
      MulMonotone(c, d, b);
    }
  }

  lemma Pow4Monotone(a: nat, b: nat)
    requires a <= b
    ensures Pow4(a) <= Pow4(b)
  {
    MulLe(a, b, a, b);
    MulLe(a * a, b * b, a * a, b * b);
  }

  lemma SelfBelowPow4(r: nat)
    ensures r <= Pow4(r)
  {
    if r >= 1 {
      MulLe(1, r, r, r);
      MulLe(1, r * r, r * r, r * r);
    }
  }

  /** The integer fourth root by upward search from r. */
  function Root4From(x: nat, r: nat): (s: nat)
    requires Pow4(r) <= x
    ensures Pow4(s) <= x < Pow4(s + 1)
    decreases x - r
  {
    SelfBelowPow4(r + 1);
    if Pow4(r + 1) <= x then Root4From(x, r + 1) else r
  }

  /** `(avg as f64).powf(0.25) as i64`, taken as the exact floor of the fourth
      root; the root of a negative number is NaN, which casts to 0. */
  function Root4(x: int): (r: int)
    ensures x >= 0 ==> r >= 0 && Pow4(r) <= x < Pow4(r + 1)
    ensures x < 0 ==> r == 0
  {
    if x < 0 then 0 else Root4From(x, 0)
  }

  lemma Pow4Succ(c: nat)
    ensures Pow4(c) < Pow4(c + 1)
  {
    var s, t := c * c, (c + 1) * (c + 1);
    assert t == s + 2 * c + 1;
    MulLe(s, t, s, s);
    MulSucc(s, t);
    MulLe(s + 1, t, t, t);
    assert s * t <= t * t;
    assert s * s <= s * t by { MulLe(s, s, s, t); }
    assert s * s < t * t;
  }

  /** A root candidate r (Pow4(r) <= x < Pow4(r + 1)) is at least every c
      with Pow4(c) <= x and below every c with x < Pow4(c). */
  lemma RootAbove(x: int, r: nat, c: nat)
    requires x < Pow4(r + 1) && Pow4(c) <= x
    ensures c <= r
  {
    if c > r {
      Pow4Monotone(r + 1, c);
    }
  }

  lemma RootBelow(x: int, r: nat, c: nat)
    requires Pow4(r) <= x < Pow4(c)
    ensures r < c
  {
    if r >= c {
      Pow4Monotone(c, r);
    }
  }

  /** The fourth root of a fourth power is its base. */
  lemma Root4OfPow4(c: nat)
    ensures Root4(Pow4(c)) == c
  {
    var x := Pow4(c);
    SelfBelowPow4(c);
    var r := Root4(x);
    Pow4Succ(c);
    RootAbove(x, r, c);
    RootBelow(x, r, c + 1);
  }

  /** The fourth root is monotone: bounds on x carry over to its root. */
  lemma Root4Between(x: int, lo: nat, hi: nat)
    requires Pow4(lo) <= x <= Pow4(hi)
    ensures lo <= Root4(x) <= hi
  {
    SelfBelowPow4(lo);
    var r := Root4(x);
    RootAbove(x, r, lo);
    Pow4Succ(hi);
    RootBelow(x, r, hi + 1);
  }

  /** `calc_normalized_power`: below 30 samples the plain average; otherwise
      the fourth root of the mean fourth power of the 30-sample rolling
      averages. */
  function CalcNormalizedPower(powerData: seq<Power>): (r: Option<Power>)
    ensures |powerData| < 30 ==> r == AveragePower(powerData)
  {
    if |powerData| < 30 then AveragePower(powerData)
    else
      match Average(Pow4s(RollingAverages(powerData, 30)))
      case None => None
      case Some(avg) => Some(Power(Root4(avg)))
  }

  /** NP exists exactly when there is power data. */
  lemma NormalizedPowerExists(powerData: seq<Power>)
    ensures CalcNormalizedPower(powerData).Some? <==> |powerData| > 0
  {
  }

  /** With 30 or more non-negative samples, NP lies between the smallest and
      the largest sample. */
  lemma NormalizedPowerBetween(powerData: seq<Power>, lo: nat, hi: nat)
    requires |powerData| >= 30
    requires forall i :: 0 <= i < |powerData| ==> lo <= powerData[i].watts <= hi
    ensures lo <= CalcNormalizedPower(powerData).value.watts <= hi
  {
    var rolling := RollingAverages(powerData, 30);
    var fourth := Pow4s(rolling);
    forall i | 0 <= i < |fourth| ensures Pow4(lo) <= fourth[i] <= Pow4(hi) {
      RollingAverageWindow(powerData, 30, i, lo, hi);
      Pow4Monotone(lo, rolling[i].watts);
      Pow4Monotone(rolling[i].watts, hi);
    }
    AverageBounds(fourth, Pow4(lo), Pow4(hi));
    Root4Between(Average(fourth).value, lo, hi);
  }

  /** Constant effort: NP equals the constant power, whatever the length. */
  lemma ConstantEffortNormalizedPower(powerData: seq<Power>, c: nat)
    requires |powerData| > 0
    requires forall i :: 0 <= i < |powerData| ==> powerData[i] == Power(c)
    ensures CalcNormalizedPower(powerData) == Some(Power(c))
  {
    if |powerData| < 30 {
      AveragePowerConstant(powerData, c);
    } else {
      NormalizedPowerBetween(powerData, c, c);
    }
  }

  /** An hour of samples at 200 W, or four of them, have NP 200 W. */
  lemma ConstantEffortExamples(hour: seq<Power>, few: seq<Power>)
    requires |hour| == 3600 && forall i :: 0 <= i < |hour| ==> hour[i] == Power(200)
    requires |few| == 4 && forall i :: 0 <= i < |few| ==> few[i] == Power(200)
    ensures CalcNormalizedPower(hour) == Some(Power(200))
    ensures CalcNormalizedPower(few) == Some(Power(200))
  {
    ConstantEffortNormalizedPower(hour, 200);
    ConstantEffortNormalizedPower(few, 200);
  }

  // ---------------------------------------------------------------------------
  // Altitude gain and loss

  /** The fold state: gain so far, loss so far, previous altitude. */
  datatype AltitudeState = AltitudeState(gain: Option<AltitudeDiff>, loss: Option<AltitudeDiff>, prev: Option<Altitude>)

  /** Adds a difference to an optional accumulator, starting it if absent. */
  function Accumulate(acc: Option<AltitudeDiff>, d: AltitudeDiff): Option<AltitudeDiff>
  {
    match acc
    case None => Some(d)
    case Some(a) => Some(AddDiff(a, d))
  }

  /** One step of the fold: a strict rise adds to the gain, any other step
      (level or falling) adds to the loss. */
  function AltitudeStep(st: AltitudeState, next: Altitude): AltitudeState
  {
    match st.prev
    case None => AltitudeState(st.gain, st.loss, Some(next))
    case Some(prev) =>
      if prev.meters < next.meters then
        AltitudeState(Accumulate(st.gain, SubDiff(AltitudeDiffFrom(next), AltitudeDiffFrom(prev))), st.loss, Some(next))
      else
        AltitudeState(st.gain, Accumulate(st.loss, SubDiff(AltitudeDiffFrom(prev), AltitudeDiffFrom(next))), Some(next))
  }

  function AltitudeFold(alts: seq<Altitude>): AltitudeState
  {
    if |alts| == 0 then AltitudeState(None, None, None)
    else AltitudeStep(AltitudeFold(alts[..|alts| - 1]), alts[|alts| - 1])
  }

  /** `calc_altitude_changes`: gain is the sum of the strict rises, None when
      there is none; loss is the total drop over the other steps, None when
      every step rises. */
  function CalcAltitudeChanges(alts: seq<Altitude>): (r: (Option<AltitudeDiff>, Option<AltitudeDiff>))
    ensures r == ((if HasRise(alts) then Some(AltitudeDiff(Rises(alts))) else None),
                  (if HasOtherStep(alts) then Some(AltitudeDiff(Falls(alts))) else None))
  {
    AltitudeGainSpec(alts);
    AltitudeLossSpec(alts);
    var st := AltitudeFold(alts);
    (st.gain, st.loss)
  }

  /** Reference definitions: the sum of the strict rises between consecutive
      samples, and the sum of the drops over the other steps. */
  function Rises(alts: seq<Altitude>): real
  {
    if |alts| < 2 then 0.0
    else
      var a, b := alts[|alts| - 2].meters, alts[|alts| - 1].meters;
      Rises(alts[..|alts| - 1]) + (if a < b then b - a else 0.0)
  }

  function Falls(alts: seq<Altitude>): real
  {
    if |alts| < 2 then 0.0
    else
      var a, b := alts[|alts| - 2].meters, alts[|alts| - 1].meters;
      Falls(alts[..|alts| - 1]) + (if a < b then 0.0 else a - b)
  }

  predicate HasRise(alts: seq<Altitude>)
  {
    exists i :: 0 <= i < |alts| - 1 && alts[i].meters < alts[i + 1].meters
  }

  predicate HasOtherStep(alts: seq<Altitude>)
  {
    exists i :: 0 <= i < |alts| - 1 && !(alts[i].meters < alts[i + 1].meters)
  }

  /** Appending a sample adds exactly one step to the two predicates. */
  lemma StepsSnoc(alts: seq<Altitude>)
    requires |alts| >= 2
    ensures var prefix, a, b := alts[..|alts| - 1], alts[|alts| - 2], alts[|alts| - 1];
            && (HasRise(alts) <==> HasRise(prefix) || a.meters < b.meters)
            && (HasOtherStep(alts) <==> HasOtherStep(prefix) || !(a.meters < b.meters))
  {
    RiseSnoc(alts);
    OtherStepSnoc(alts);
  }

  lemma RiseSnoc(alts: seq<Altitude>)
    requires |alts| >= 2
    ensures var prefix, a, b := alts[..|alts| - 1], alts[|alts| - 2], alts[|alts| - 1];
            HasRise(alts) <==> HasRise(prefix) || a.meters < b.meters
  {
    var prefix, k := alts[..|alts| - 1], |alts| - 2;
    assert alts[k + 1] == alts[|alts| - 1];
    if HasRise(alts) {
      var i :| 0 <= i < |alts| - 1 && alts[i].meters < alts[i + 1].meters;
      if i < k {
        assert prefix[i] == alts[i] && prefix[i + 1] == alts[i + 1];
      }
    }
    if HasRise(prefix) {
      var i :| 0 <= i < |prefix| - 1 && prefix[i].meters < prefix[i + 1].meters;
      assert alts[i] == prefix[i] && alts[i + 1] == prefix[i + 1];
    }
  }

  lemma OtherStepSnoc(alts: seq<Altitude>)
    requires |alts| >= 2
    ensures var prefix, a, b := alts[..|alts| - 1], alts[|alts| - 2], alts[|alts| - 1];
            HasOtherStep(alts) <==> HasOtherStep(prefix) || !(a.meters < b.meters)
  {
    var prefix, k := alts[..|alts| - 1], |alts| - 2;
    assert alts[k + 1] == alts[|alts| - 1];
    if HasOtherStep(alts) {
      var i :| 0 <= i < |alts| - 1 && !(alts[i].meters < alts[i + 1].meters);
      if i < k {
        assert prefix[i] == alts[i] && prefix[i + 1] == alts[i + 1];
      }
    }
    if HasOtherStep(prefix) {
      var i :| 0 <= i < |prefix| - 1 && !(prefix[i].meters < prefix[i + 1].meters);
      assert alts[i] == prefix[i] && alts[i + 1] == prefix[i + 1];
    }
  }

  /** Without a rise the rises sum to zero; without another step the falls
      do. */
  lemma {:induction false} EmptySums(alts: seq<Altitude>)
    ensures !HasRise(alts) ==> Rises(alts) == 0.0
    ensures !HasOtherStep(alts) ==> Falls(alts) == 0.0
  {
    if |alts| >= 2 {
      EmptySums(alts[..|alts| - 1]);
      StepsSnoc(alts);
    }
  }

  /** The fold remembers the last sample. */
  lemma {:induction false} AltitudeFoldPrev(alts: seq<Altitude>)
    ensures AltitudeFold(alts).prev == if |alts| == 0 then None else Some(alts[|alts| - 1])
  {
    if |alts| > 0 {
      AltitudeFoldPrev(alts[..|alts| - 1]);
    }
  }

  /** Gain is the total of the strict rises, None when there is none. */
  lemma {:induction false} AltitudeGainSpec(alts: seq<Altitude>)
    ensures AltitudeFold(alts).gain == if HasRise(alts) then Some(AltitudeDiff(Rises(alts))) else None
  {
    if |alts| > 0 {
      var prefix := alts[..|alts| - 1];
      AltitudeGainSpec(prefix);
      AltitudeFoldPrev(prefix);
      if |alts| >= 2 {
        assert prefix[|prefix| - 1] == alts[|alts| - 2];
        EmptySums(prefix);
        StepsSnoc(alts);
      }
    }
  }

  /** Loss is the total drop over the steps that are not strict rises (a
      level step counts, giving Some(0)), None when every step rises. */
  lemma {:induction false} AltitudeLossSpec(alts: seq<Altitude>)
    ensures AltitudeFold(alts).loss == if HasOtherStep(alts) then Some(AltitudeDiff(Falls(alts))) else None
  {
    if |alts| > 0 {
      var prefix := alts[..|alts| - 1];
      AltitudeLossSpec(prefix);
      AltitudeFoldPrev(prefix);
      if |alts| >= 2 {
        assert prefix[|prefix| - 1] == alts[|alts| - 2];
        EmptySums(prefix);
        StepsSnoc(alts);
      }
    }
  }

  /** Fewer than two samples have no step, hence neither gain nor loss. */
  lemma AltitudeChangesShort(alts: seq<Altitude>)
    requires |alts| < 2
    ensures CalcAltitudeChanges(alts) == (None, None)
  {
  }

  lemma {:induction false} RisesOfIncreasing(alts: seq<Altitude>)
    requires |alts| >= 1
    requires forall i :: 0 <= i < |alts| - 1 ==> alts[i].meters < alts[i + 1].meters
    ensures Rises(alts) == alts[|alts| - 1].meters - alts[0].meters
  {
    if |alts| >= 2 {
      RisesOfIncreasing(alts[..|alts| - 1]);
    }
  }

  /** A strictly climbing series gains its total height difference and loses
      nothing (loss is None). */
  lemma AltitudeChangesClimb(alts: seq<Altitude>)
    requires |alts| >= 2
    requires forall i :: 0 <= i < |alts| - 1 ==> alts[i].meters < alts[i + 1].meters
    ensures CalcAltitudeChanges(alts)
         == (Some(AltitudeDiff(alts[|alts| - 1].meters - alts[0].meters)), None)
  {
    RisesOfIncreasing(alts);
    assert alts[0].meters < alts[1].meters;
  }

  /** Gain and loss are never negative. */
  lemma {:induction false} RisesFallsNonNegative(alts: seq<Altitude>)
    ensures Rises(alts) >= 0.0 && Falls(alts) >= 0.0
  {
    if |alts| >= 2 {
      RisesFallsNonNegative(alts[..|alts| - 1]);
    }
  }

  // ---------------------------------------------------------------------------
  // Maximum and peaks

  /** `iter().max().copied()` on power values: None when empty, otherwise a
      sample at least as large as every other. */
  function MaxPower(data: seq<Power>): (r: Option<Power>)
    ensures r.None? <==> |data| == 0
    ensures r.Some? ==> exists i :: 0 <= i < |data| && data[i] == r.value
    ensures r.Some? ==> forall i :: 0 <= i < |data| ==> data[i].watts <= r.value.watts
  {
    if |data| == 0 then None
    else
      var rest := MaxPower(data[..|data| - 1]);
      var last := data[|data| - 1];
      assert forall i :: 0 <= i < |data| - 1 ==> data[..|data| - 1][i] == data[i];
      if rest.None? || rest.value.watts <= last.watts then Some(last) else rest
  }

  /** `iter().max().copied()` on heart-rate values. */
  function MaxHeartRate(data: seq<HeartRate>): (r: Option<HeartRate>)
    ensures r.None? <==> |data| == 0
    ensures r.Some? ==> exists i :: 0 <= i < |data| && data[i] == r.value
    ensures r.Some? ==> forall i :: 0 <= i < |data| ==> data[i].bpm <= r.value.bpm
  {
    if |data| == 0 then None
    else
      var rest := MaxHeartRate(data[..|data| - 1]);
      var last := data[|data| - 1];
      assert forall i :: 0 <= i < |data| - 1 ==> data[..|data| - 1][i] == data[i];
      if rest.None? || rest.value.bpm <= last.bpm then Some(last) else rest
  }

  /** `PeakPerformances::get_one`: the peak for every requested duration that
      has one (a zero duration would panic in `windows`). */
  function GetOne(data: seq<Sample>, peakDurations: set<I64>): (r: map<I64, Peak>)
    requires 0 !in peakDurations
    ensures forall d :: d in r ==> d in peakDurations && FromMeasurementRecords(data, d) == Some(r[d])
    ensures forall d :: d in peakDurations && FromMeasurementRecords(data, d).Some? ==> d in r
  {
    map d | d in peakDurations && FromMeasurementRecords(data, d).Some? :: FromMeasurementRecords(data, d).value
  }

  /** A duration is a key of the peak map exactly when it was requested and the
      series holds a full window of it. */
  lemma GetOneKeys(data: seq<Sample>, peakDurations: set<I64>, d: I64)
    requires 0 !in peakDurations
    ensures d in GetOne(data, peakDurations) <==> d in peakDurations && WindowLength(d) <= |data|
  {
    if d in peakDurations {
      PeakExistsIffLongEnough(data, d);
    }
  }

  /** Power and heart-rate peak maps (speed peaks are not modelled). */
  datatype PeakPerformances = PeakPerformances(power: map<I64, Peak>, heartRate: map<I64, Peak>)

  // ---------------------------------------------------------------------------
  // The analysis of one activity

  /** An activity as the analysis sees it: an optional start date, an optional
      elapsed time in seconds, and timestamped power and heart-rate samples
      and altitude samples. */
  datatype Activity = Activity(
    startDate: Option<int>,
    duration: Option<I64>,
    power: seq<Sample>,
    heartRate: seq<Sample>,
    altitude: seq<Altitude>)

  datatype Analysis = Analysis(
    totalWork: Work,
    normalizedPower: Option<Power>,
    intensityFactor: Option<F64>,
    variabilityIndex: Option<F64>,
    tss: Option<Tss>,
    hrTss: Option<Tss>,
    averagePower: Option<Power>,
    maximumPower: Option<Power>,
    averageHeartRate: Option<HeartRate>,
    maximumHeartRate: Option<HeartRate>,
    elevationGain: Option<AltitudeDiff>,
    elevationLoss: Option<AltitudeDiff>,
    peakPerformances: PeakPerformances)

  function PowerValues(samples: seq<Sample>): (r: seq<Power>)
    ensures |r| == |samples|
    ensures forall i :: 0 <= i < |samples| ==> r[i] == Power(samples[i].value)
  {
    seq(|samples|, i requires 0 <= i < |samples| => Power(samples[i].value))
  }

  function HeartRateValues(samples: seq<Sample>): (r: seq<HeartRate>)
    ensures |r| == |samples|
    ensures forall i :: 0 <= i < |samples| ==> r[i] == HeartRate(samples[i].value)
  {
    seq(|samples|, i requires 0 <= i < |samples| => HeartRate(samples[i].value))
  }

  /** `date.and_then(|d| get_actual_ftp(&d))` */
  function ActualFtp(records: MeasurementRecords, date: Option<int>): (r: Option<Power>)
    ensures date.None? ==> r.None?
    ensures date.Some? ==> r == Latest(records.entries, date.value, GetFtp)
  {
    match date
    case None => None
    case Some(d) => GetActualFtp(records, d)
  }

  /** `date.and_then(|d| get_actual_fthr(&d))` */
  function ActualFthr(records: MeasurementRecords, date: Option<int>): (r: Option<HeartRate>)
    ensures date.None? ==> r.None?
    ensures date.Some? ==> r == Latest(records.entries, date.value, GetFthr)
  {
    match date
    case None => None
    case Some(d) => GetActualFthr(records, d)
  }

  /** `ActivityAnalysis::from_activity` (without the speed fields). Which
      results exist: TSS needs an FTP, a duration and power data; IF an FTP and
      power data; VI only power data; hrTSS exactly an FTHr. The averages and
      maxima exist exactly when there are samples, and the total work is the
      sum of the power samples. */
  function FromActivity(records: MeasurementRecords, activity: Activity, peakDurations: set<I64>): (r: Analysis)
    requires 0 !in peakDurations
    ensures var ftp := ActualFtp(records, activity.startDate);
            var fthr := ActualFthr(records, activity.startDate);
            var hasPower := |activity.power| > 0;
            && (r.tss.Some? <==> ftp.Some? && activity.duration.Some? && hasPower)
            && (r.intensityFactor.Some? <==> ftp.Some? && hasPower)
            && (r.variabilityIndex.Some? <==> hasPower)
            && (r.normalizedPower.Some? <==> hasPower)
            && (r.averagePower.Some? <==> hasPower)
            && (r.maximumPower.Some? <==> hasPower)
            && (r.hrTss.Some? <==> fthr.Some?)
            && (r.averageHeartRate.Some? <==> |activity.heartRate| > 0)
    ensures r.totalWork == Work(Sum(Watts(PowerValues(activity.power))))
  {
    NormalizedPowerExists(PowerValues(activity.power));
    var ftp := ActualFtp(records, activity.startDate);
    var fthr := ActualFthr(records, activity.startDate);
    var powerData := PowerValues(activity.power);
    var heartRateData := HeartRateValues(activity.heartRate);
    var averagePower := AveragePower(powerData);
    var normalizedPower := CalcNormalizedPower(powerData);
    var intensityFactor :=
      if ftp.Some? && normalizedPower.Some? then Some(CalcIntensityFactor(ftp.value, normalizedPower.value)) else None;
    var variabilityIndex :=
      if normalizedPower.Some? && averagePower.Some? then Some(CalcVariabilityIndex(normalizedPower.value, averagePower.value)) else None;
    var tss :=
      if ftp.Some? && activity.duration.Some? && normalizedPower.Some?
      then Some(TssCalculate(ftp.value, activity.duration.value, normalizedPower.value)) else None;
    var hrTss := if fthr.Some? then Some(HrTssOf(fthr.value, heartRateData)) else None;
    var changes := CalcAltitudeChanges(activity.altitude);
    Analysis(
      CalcTotalWork(powerData),
      normalizedPower,
      intensityFactor,
      variabilityIndex,
      tss,
      hrTss,
      averagePower,
      MaxPower(powerData),
      AverageHeartRate(heartRateData),
      MaxHeartRate(heartRateData),
      changes.0,
      changes.1,
      PeakPerformances(GetOne(activity.power, peakDurations), GetOne(activity.heartRate, peakDurations)))
  }

  /** The values behind the options: hrTSS is the zone-weighted score for the
      latest FTHr record on or before the start date, and TSS the power TSS
      for the latest FTP record on or before it. */
  lemma FromActivityValues(records: MeasurementRecords, activity: Activity, peakDurations: set<I64>)
    requires 0 !in peakDurations
    ensures var r, d := FromActivity(records, activity, peakDurations), activity.startDate;
            r.hrTss.Some? ==>
              d.Some? && r.hrTss.value
                == HrTssOf(Latest(records.entries, d.value, GetFthr).value, HeartRateValues(activity.heartRate))
    ensures var r, d := FromActivity(records, activity, peakDurations), activity.startDate;
            r.tss.Some? ==>
              d.Some? && r.tss.value
                == TssCalculate(Latest(records.entries, d.value, GetFtp).value, activity.duration.value,
                                CalcNormalizedPower(PowerValues(activity.power)).value)
  {
  }

  /** Without a start date no threshold applies, so there is no TSS, IF or
      hrTSS. */
  lemma NoDateNoThresholdMetrics(records: MeasurementRecords, activity: Activity, peakDurations: set<I64>)
    requires 0 !in peakDurations && activity.startDate.None?
    ensures var r := FromActivity(records, activity, peakDurations);
            r.tss.None? && r.intensityFactor.None? && r.hrTss.None?
  {
  }
}
