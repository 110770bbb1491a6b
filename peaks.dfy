/** The sliding-window peak finder (src/peak.rs): the best average over every
    run of n consecutive samples, with the first and last timestamps of the
    winning run.  Samples carry an i64 value (the inner value of a Power or a
    HeartRate, whose averages are the i64 average rewrapped) and an opaque
    timestamp. */
module Peaks {
  import opened Prelude
  import opened Measurements

  /** One sample: its value and its timestamp. */
  datatype Sample = Sample(value: int, time: int)

  /** A peak: the best window average, the window's first and last timestamps,
      and the requested duration in seconds. */
  datatype Peak = Peak(value: int, timestamps: TimeInterval, duration: I64)

  /** The first and last timestamps of a window. */
  datatype TimeInterval = TimeInterval(start: int, end: int)

  /** `Ord for Peak`: by value alone. */
  function PeakCmp(a: Peak, b: Peak): (r: Ordering)
    ensures r == Less <==> a.value < b.value
    ensures r == Equal <==> a.value == b.value
    ensures r == Greater <==> a.value > b.value
  {
    Cmp(a.value, b.value)
  }

  /** `PartialEq for Peak`: by value alone, so it agrees with PeakCmp. */
  function PeakEq(a: Peak, b: Peak): (r: bool)
    ensures r <==> PeakCmp(a, b) == Equal
  {
    a.value == b.value
  }

  /** Two peaks with the same values compare and test equal whatever their
      timestamps and durations. */
  lemma PeakOrderIgnoresTimestamps(a: Peak, b: Peak, a': Peak, b': Peak)
    requires a.value == a'.value && b.value == b'.value
    ensures PeakCmp(a, b) == PeakCmp(a', b')
    ensures PeakEq(a, b) == PeakEq(a', b')
  {
  }

  /** `duration.num_seconds() as usize`: a negative i64 wraps to a length no
      slice can reach. */
  function WindowLength(duration: I64): (n: nat)
    ensures duration >= 0 ==> n == duration
    ensures duration < 0 ==> n >= 0x1_0000_0000_0000_0000 - 0x8000_0000_0000_0000
  {
    if duration >= 0 then duration else duration + 0x1_0000_0000_0000_0000
  }

  function Values(window: seq<Sample>): (r: seq<int>)
    ensures |r| == |window|
    ensures forall i :: 0 <= i < |window| ==> r[i] == window[i].value
  {
    seq(|window|, i requires 0 <= i < |window| => window[i].value)
  }

  /** `get_peak`: the average of one window with its first and last timestamps;
      None for an empty window. */
  function GetPeak(window: seq<Sample>, duration: I64): (r: Option<Peak>)
    ensures r.None? <==> |window| == 0
    ensures r.Some? ==>
      && Average(Values(window)) == Some(r.value.value)
      && r.value.timestamps == TimeInterval(window[0].time, window[|window| - 1].time)
      && r.value.duration == duration
  {
    match Average(Values(window))
    case None => None
    case Some(avg) => Some(Peak(avg, TimeInterval(window[0].time, window[|window| - 1].time), duration))
  }

  /** The number of windows of n samples (`slice::windows(n)`). */
  function WindowCount(ms: seq<Sample>, n: nat): nat
  {
    if n <= |ms| then |ms| - n + 1 else 0
  }

  /** `windows(n).map(|w| get_peak(w, duration))` */
  function WindowPeaks(ms: seq<Sample>, n: nat, duration: I64): (r: seq<Option<Peak>>)
    requires n >= 1
    ensures |r| == WindowCount(ms, n)
    ensures forall i :: 0 <= i < |r| ==> r[i] == GetPeak(ms[i..i + n], duration)
  {
    seq(WindowCount(ms, n), i requires 0 <= i < WindowCount(ms, n) => GetPeak(ms[i..i + n], duration))
  }

  /** `filter_map(identity)` */
  function FilterSome<T>(s: seq<Option<T>>): (r: seq<T>)
    ensures |r| <= |s|
    ensures (forall i :: 0 <= i < |s| ==> s[i].Some?) ==>
      |r| == |s| && forall i :: 0 <= i < |s| ==> r[i] == s[i].value
  {
    if |s| == 0 then []
    else
      var rest := FilterSome(s[1..]);
      if s[0].Some? then
        assert forall i :: 1 <= i < |s| ==> s[i] == s[1..][i - 1];
        [s[0].value] + rest
      else rest
  }

  /** `cmp::max_by`: the second argument unless the first is strictly greater,
      so a maximum by value that favours the later one on a tie. */
  function MaxBy(a: Peak, b: Peak): (r: Peak)
    ensures r == a || r == b
    ensures r.value >= a.value && r.value >= b.value
    ensures a.value == b.value ==> r == b
  {
    if PeakCmp(a, b) == Greater then a else b
  }

  /** `Iterator::max`: a left fold of MaxBy, so among equal maxima the last
      one wins; None on an empty iterator. */
  function IterMax(ps: seq<Peak>): (r: Option<Peak>)
    ensures r.None? <==> |ps| == 0
    ensures r.Some? ==> forall i :: 0 <= i < |ps| ==> ps[i].value <= r.value.value
    ensures r.Some? ==>
      exists k :: 0 <= k < |ps| && ps[k] == r.value
        && forall j :: k < j < |ps| ==> ps[j].value < r.value.value
  {
    if |ps| == 0 then None
    else if |ps| == 1 then Some(ps[0])
    else
      var prefix := IterMax(ps[..|ps| - 1]);
      var last := ps[|ps| - 1];
      var m := MaxBy(prefix.value, last);
      assert forall i :: 0 <= i < |ps| - 1 ==> ps[i] == ps[..|ps| - 1][i];
      if m == last then
        assert ps[|ps| - 1] == m;
        Some(m)
      else
        var k :| 0 <= k < |ps| - 1 && ps[k] == prefix.value
          && forall j :: k < j < |ps| - 1 ==> ps[j].value < prefix.value.value;
        assert ps[k] == m;
        Some(m)
  }

  /** The integer average of the n samples from index i. */
  function WindowAverage(ms: seq<Sample>, i: nat, n: nat): int
    requires n >= 1 && i + n <= |ms|
  {
    Average(Values(ms[i..i + n])).value
  }

  /** The peak `get_peak` builds for the n-sample window starting at index i. */
  function PeakOfWindow(ms: seq<Sample>, i: nat, n: nat, duration: I64): Peak
    requires n >= 1 && i + n <= |ms|
  {
    Peak(WindowAverage(ms, i, n), TimeInterval(ms[i].time, ms[i + n - 1].time), duration)
  }

  /** `Peak::from_measurement_records`; Rust panics on a zero-length window.
      A peak comes from a full window and carries the requested duration. */
  function FromMeasurementRecords(ms: seq<Sample>, duration: I64): (r: Option<Peak>)
    requires duration != 0
    ensures r.Some? ==> WindowLength(duration) <= |ms| && r.value.duration == duration
  {
    var n := WindowLength(duration);
    WindowPeaksAllSome(ms, n, duration);
    IterMax(FilterSome(WindowPeaks(ms, n, duration)))
  }

  /** Every window is non-empty, so `filter_map(identity)` keeps one peak per
      window, in window order. */
  lemma WindowPeaksAllSome(ms: seq<Sample>, n: nat, duration: I64)
    requires n >= 1
    ensures |FilterSome(WindowPeaks(ms, n, duration))| == WindowCount(ms, n)
    ensures forall j :: 0 <= j < WindowCount(ms, n) ==>
      FilterSome(WindowPeaks(ms, n, duration))[j] == PeakOfWindow(ms, j, n, duration)
  {
    var ws := WindowPeaks(ms, n, duration);
    forall j | 0 <= j < |ws| ensures ws[j] == Some(PeakOfWindow(ms, j, n, duration)) {
      var w := ms[j..j + n];
      assert |w| == n;
      assert w[0] == ms[j] && w[n - 1] == ms[j + n - 1];
    }
  }

  /** There is a peak exactly when the series holds at least one full window. */
  lemma PeakExistsIffLongEnough(ms: seq<Sample>, duration: I64)
    requires duration != 0
    ensures FromMeasurementRecords(ms, duration).Some? <==> WindowLength(duration) <= |ms|
  {
    WindowPeaksAllSome(ms, WindowLength(duration), duration);
  }

  /** A negative duration never finds a peak: its wrapped length exceeds any
      series. */
  lemma NegativeDurationHasNoPeak(ms: seq<Sample>, duration: I64)
    requires duration < 0 && |ms| < 0x7fff_ffff_ffff_ffff
    ensures FromMeasurementRecords(ms, duration) == None
  {
    PeakExistsIffLongEnough(ms, duration);
  }

  /** The peak is the average of an n-sample window, carries that window's first
      and last timestamps and the requested duration, is at least the average
      of every window, and is the last window reaching that maximum. */
  lemma PeakIsLatestBestWindow(ms: seq<Sample>, duration: I64, n: nat, p: Peak)
    requires duration != 0 && n == WindowLength(duration)
    requires FromMeasurementRecords(ms, duration) == Some(p)
    ensures n <= |ms|
    ensures p.duration == duration
    ensures forall j :: 0 <= j <= |ms| - n ==> WindowAverage(ms, j, n) <= p.value
    ensures exists i :: 0 <= i <= |ms| - n
              && p == PeakOfWindow(ms, i, n, duration)
              && forall j :: i < j <= |ms| - n ==> WindowAverage(ms, j, n) < p.value
  {
    WindowPeaksAllSome(ms, n, duration);
    BestOfWindowPeaks(ms, n, duration, FilterSome(WindowPeaks(ms, n, duration)), p);
  }

  lemma BestOfWindowPeaks(ms: seq<Sample>, n: nat, duration: I64, ps: seq<Peak>, p: Peak)
    requires 1 <= n
    requires |ps| == WindowCount(ms, n)
    requires forall j :: 0 <= j < |ps| ==> ps[j] == PeakOfWindow(ms, j, n, duration)
    requires IterMax(ps) == Some(p)
    ensures n <= |ms|
    ensures p.duration == duration
    ensures forall j :: 0 <= j <= |ms| - n ==> WindowAverage(ms, j, n) <= p.value
    ensures exists i :: 0 <= i <= |ms| - n
              && p == PeakOfWindow(ms, i, n, duration)
              && forall j :: i < j <= |ms| - n ==> WindowAverage(ms, j, n) < p.value
  {
    var k :| 0 <= k < |ps| && ps[k] == p && forall j :: k < j < |ps| ==> ps[j].value < p.value;
    assert forall j :: 0 <= j <= |ms| - n ==> ps[j].value == WindowAverage(ms, j, n);
  }

  lemma ConstantWindowAverages(ms: seq<Sample>, c: int, n: nat)
    requires 1 <= n <= |ms|
    requires forall i :: 0 <= i < |ms| ==> ms[i].value == c
    ensures forall j :: 0 <= j <= |ms| - n ==> WindowAverage(ms, j, n) == c
  {
    forall j | 0 <= j <= |ms| - n ensures WindowAverage(ms, j, n) == c {
      AverageConstant(Values(ms[j..j + n]), c);
    }
  }

  /** Among windows that all average c, the last one is the one `max` keeps. */
  lemma LastOfEqualWindows(ms: seq<Sample>, c: int, n: nat, duration: I64, p: Peak)
    requires 1 <= n <= |ms|
    requires forall j :: 0 <= j <= |ms| - n ==> WindowAverage(ms, j, n) == c
    requires exists i :: 0 <= i <= |ms| - n
              && p == PeakOfWindow(ms, i, n, duration)
              && forall j :: i < j <= |ms| - n ==> WindowAverage(ms, j, n) < p.value
    ensures p == PeakOfWindow(ms, |ms| - n, n, duration)
  {
    var i :| 0 <= i <= |ms| - n && p == PeakOfWindow(ms, i, n, duration)
      && forall j :: i < j <= |ms| - n ==> WindowAverage(ms, j, n) < p.value;
    assert WindowAverage(ms, |ms| - n, n) == c && WindowAverage(ms, i, n) == c;
  }

  /** A series at a constant value peaks at that value, in its last window. */
  lemma ConstantSeriesPeak(ms: seq<Sample>, c: int, duration: I64)
    requires 1 <= duration <= |ms|
    requires forall i :: 0 <= i < |ms| ==> ms[i].value == c
    ensures FromMeasurementRecords(ms, duration)
         == Some(Peak(c, TimeInterval(ms[|ms| - duration].time, ms[|ms| - 1].time), duration))
  {
    var n: nat := duration;
    assert WindowLength(duration) == n;
    PeakExistsIffLongEnough(ms, duration);
    var r := FromMeasurementRecords(ms, duration);
    var p := r.value;
    PeakIsLatestBestWindow(ms, duration, n, p);
    ConstantWindowAverages(ms, c, n);
    LastOfEqualWindows(ms, c, n, duration, p);
    assert WindowAverage(ms, |ms| - n, n) == c;
    assert r == Some(p);
  }
}
