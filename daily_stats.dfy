/** The daily training-load series (src/daily_stats.rs): merging and
    gap-filling the daily TSS values, and the day-by-day CTL / ATL / TSB
    recurrence started from the last known day. */
module DailyStatistics {
  import opened Prelude
  import opened Metrics

  datatype DailyStats = DailyStats(date: int, tss: Tss, ctl: Ctl, atl: Atl, tsb: Tsb)

  // ---------------------------------------------------------------------------
  // One day of the recurrence

  /** `calc_daily_stats`: today's date and TSS, with CTL and ATL advanced from
      yesterday's values and TSB their difference. */
  function CalcDailyStats(yesterday: DailyStats, today: DailyTss): (r: DailyStats)
    ensures r.date == today.date && r.tss == today.tss
    ensures r.tsb.value == r.ctl.value - r.atl.value
  {
    var ctl := CtlCalculate(yesterday.ctl, today);
    var atl := AtlCalculate(yesterday.atl, today);
    DailyStats(today.date, today.tss, ctl, atl, TsbCalculate(ctl, atl))
  }

  /** Each new load lies between yesterday's load and today's TSS. */
  lemma DailyStatsBetween(yesterday: DailyStats, today: DailyTss)
    ensures var r, t := CalcDailyStats(yesterday, today), today.tss.value as real;
            && (yesterday.ctl.value <= t ==> yesterday.ctl.value <= r.ctl.value <= t)
            && (t <= yesterday.ctl.value ==> t <= r.ctl.value <= yesterday.ctl.value)
            && (yesterday.atl.value <= t ==> yesterday.atl.value <= r.atl.value <= t)
            && (t <= yesterday.atl.value ==> t <= r.atl.value <= yesterday.atl.value)
  {
  }

  /** A steady load: when both loads already equal today's TSS they stay, and
      the balance is zero. */
  lemma DailyStatsSteady(yesterday: DailyStats, today: DailyTss)
    requires yesterday.ctl.value == today.tss.value as real
    requires yesterday.atl.value == today.tss.value as real
    ensures var r := CalcDailyStats(yesterday, today);
            r.ctl == yesterday.ctl && r.atl == yesterday.atl && r.tsb.value == 0.0
  {
    TrainingLoadFixedPoint(42, today);
    TrainingLoadFixedPoint(7, today);
  }

  // ---------------------------------------------------------------------------
  // Reference definitions for sort_and_fill_daily_tss

  /** The dates present in a list of daily TSS values. */
  function Dates(s: seq<DailyTss>): set<int>
  {
    set i | 0 <= i < |s| :: s[i].date
  }

  /** The total TSS of the entries on date d (0 when there is none). */
  function TssOn(s: seq<DailyTss>, d: int): int
  {
    if |s| == 0 then 0
    else TssOn(s[..|s| - 1], d) + (if s[|s| - 1].date == d then s[|s| - 1].tss.value else 0)
  }

  /** The total TSS of a list. */
  function TotalTss(s: seq<DailyTss>): int
  {
    if |s| == 0 then 0 else TotalTss(s[..|s| - 1]) + s[|s| - 1].tss.value
  }

  /** Each entry is dated one day after the previous one. */
  predicate Consecutive(s: seq<DailyTss>)
  {
    forall i :: 0 <= i < |s| - 1 ==> s[i + 1].date == s[i].date + 1
  }

  /** The value a date takes in the accumulated map (zero for a gap). */
  function TssAt(acc: map<int, Tss>, d: int): Tss
  {
    if d in acc then acc[d] else Tss(0)
  }

  lemma {:induction false} TssOnAbsent(s: seq<DailyTss>, d: int)
    requires d !in Dates(s)
    ensures TssOn(s, d) == 0
  {
    if |s| > 0 {
      var p := s[..|s| - 1];
      assert Dates(p) <= Dates(s) by {
        forall e | e in Dates(p) ensures e in Dates(s) {
          var i :| 0 <= i < |p| && p[i].date == e;
          assert s[i] == p[i];
        }
      }
      TssOnAbsent(p, d);
    }
  }

  lemma DatesSnoc(s: seq<DailyTss>, i: nat)
    requires i < |s|
    ensures Dates(s[..i + 1]) == Dates(s[..i]) + {s[i].date}
  {
    var p, q := s[..i], s[..i + 1];
    forall e | e in Dates(q) ensures e in Dates(p) + {s[i].date} {
      var j :| 0 <= j < |q| && q[j].date == e;
      if j < i {
        assert p[j] == q[j];
      }
    }
    forall e | e in Dates(p) ensures e in Dates(q) {
      var j :| 0 <= j < |p| && p[j].date == e;
      assert q[j] == p[j];
    }
    assert q[i] == s[i];
  }

  // ---------------------------------------------------------------------------
  // sort_and_fill_daily_tss

  /** The accumulation fold: `entry(date).and_modify(+= tss).or_insert(tss)`
      for every entry in turn. */
  method AccumulateByDate(unsorted: seq<DailyTss>) returns (acc: map<int, Tss>)
    ensures acc.Keys == Dates(unsorted)
    ensures forall d :: d in acc ==> acc[d] == Tss(TssOn(unsorted, d))
  {
    acc := map[];
    for i := 0 to |unsorted|
      invariant acc.Keys == Dates(unsorted[..i])
      invariant forall d :: d in acc ==> acc[d] == Tss(TssOn(unsorted[..i], d))
    {
      var date, tss := unsorted[i].date, unsorted[i].tss;
      assert unsorted[..i + 1][..i] == unsorted[..i];
      DatesSnoc(unsorted, i);
      if date in acc {
        acc := acc[date := Tss(acc[date].value + tss.value)];
      } else {
        TssOnAbsent(unsorted[..i], date);
        acc := acc[date := tss];
      }
    }
    assert unsorted[..|unsorted|] == unsorted;
  }

  /** A non-empty set of dates has a member (by extensionality). */
  lemma HasMember(s: set<int>)
    requires s != {}
    ensures exists y :: y in s
  {
    assert (forall y :: y !in s) ==> s == {};
  }

  /** A finite non-empty set of dates has a least element. */
  lemma {:induction false} MinimumExists(s: set<int>)
    requires s != {}
    ensures exists m :: m in s && forall e :: e in s ==> m <= e
    decreases |s|
  {
    HasMember(s);
    var x :| x in s;
    var t := s - {x};
    if t == {} {
      forall e | e in s ensures x <= e {
        assert e !in t;
      }
    } else {
      MinimumExists(t);
      var m :| m in t && forall e :: e in t ==> m <= e;
      AddBelowMinimum(s, x, t, m);
    }
  }

  /** Adding x back to a set whose minimum is m gives the smaller of the two as
      minimum. */
  lemma AddBelowMinimum(s: set<int>, x: int, t: set<int>, m: int)
    requires x in s && t == s - {x}
    requires m in t && forall e :: e in t ==> m <= e
    ensures exists least :: least in s && forall e :: e in s ==> least <= e
  {
    var least := if x < m then x else m;
    forall e | e in s ensures least <= e {
      if e != x {
        assert e in t;
      }
    }
    assert least in s;
  }

  /** Every entry carries the accumulated TSS of its date. */
  predicate TssFromMap(out: seq<DailyTss>, acc: map<int, Tss>)
  {
    forall i :: 0 <= i < |out| ==> out[i].tss == TssAt(acc, out[i].date)
  }

  /** The inner loop of the gap filling: zero-TSS days from the day after the
      last pushed date up to the day before `next`. */
  method PushGapDays(out: seq<DailyTss>, next: int, acc: map<int, Tss>) returns (r: seq<DailyTss>)
    requires |out| > 0 && out[|out| - 1].date < next
    requires forall e :: out[|out| - 1].date < e < next ==> e !in acc
    requires Consecutive(out) && TssFromMap(out, acc)
    ensures |r| >= |out| > 0 && r[..|out|] == out && r[|r| - 1].date == next - 1
    ensures Consecutive(r) && TssFromMap(r, acc)
  {
    r := out;
    var lastDate := out[|out| - 1].date;
    var days := 1;
    while days < next - lastDate
      invariant 1 <= days <= next - lastDate
      invariant |r| >= |out| && r[..|out|] == out && r[|r| - 1].date == lastDate + days - 1
      invariant Consecutive(r) && TssFromMap(r, acc)
    {
      r := r + [DailyTss(lastDate + days, Tss(0))];
      days := days + 1;
    }
  }

  /** The gap-filling fold over the map in increasing key order: before each
      date, zero-TSS days are pushed for every day missing since the last
      pushed date. */
  method FillGaps(acc: map<int, Tss>) returns (out: seq<DailyTss>)
    ensures |out| == 0 <==> acc.Keys == {}
    ensures Consecutive(out)
    ensures forall i :: 0 <= i < |out| ==> out[i].tss == TssAt(acc, out[i].date)
    ensures |out| > 0 ==> out[0].date in acc && out[|out| - 1].date in acc
    ensures |out| > 0 ==> forall d :: d in acc ==> out[0].date <= d <= out[|out| - 1].date
  {
    out := [];
    var remaining := acc.Keys;
    while remaining != {}
      invariant remaining <= acc.Keys
      invariant |out| == 0 <==> remaining == acc.Keys
      invariant Consecutive(out) && TssFromMap(out, acc)
      invariant |out| > 0 ==> out[0].date in acc && out[|out| - 1].date in acc
      invariant |out| > 0 ==> forall k :: k in acc ==> out[0].date <= k
      invariant |out| > 0 ==> forall k :: k in acc && k !in remaining ==> k <= out[|out| - 1].date
      invariant |out| > 0 ==> forall k :: k in remaining ==> out[|out| - 1].date < k
      decreases |remaining|
    {
      MinimumExists(remaining);
      var d :| d in remaining && forall e :: e in remaining ==> d <= e;
      if |out| > 0 {
        out := PushGapDays(out, d, acc);
      }
      out := out + [DailyTss(d, acc[d])];
      remaining := remaining - {d};
    }
  }

  /** `sort_and_fill_daily_tss`: one entry per day from the earliest to the
      latest input date, each carrying the summed TSS of that date (0 for the
      filled gaps). */
  method SortAndFillDailyTss(unsorted: seq<DailyTss>) returns (sorted: seq<DailyTss>)
    ensures |sorted| == 0 <==> |unsorted| == 0
    ensures Consecutive(sorted)
    ensures forall i :: 0 <= i < |sorted| ==> sorted[i].tss == Tss(TssOn(unsorted, sorted[i].date))
    ensures |sorted| > 0 ==> sorted[0].date in Dates(unsorted) && sorted[|sorted| - 1].date in Dates(unsorted)
    ensures |sorted| > 0 ==> forall d :: d in Dates(unsorted) ==> sorted[0].date <= d <= sorted[|sorted| - 1].date
  {
    var acc := AccumulateByDate(unsorted);
    sorted := FillGaps(acc);
    forall i | 0 <= i < |sorted| ensures sorted[i].tss == Tss(TssOn(unsorted, sorted[i].date)) {
      if sorted[i].date !in acc {
        TssOnAbsent(unsorted, sorted[i].date);
      }
    }
    if |unsorted| > 0 {
      assert unsorted[0].date in Dates(unsorted);
    }
  }

  /** What the sorted and filled list guarantees about its input. */
  predicate FilledFrom(sorted: seq<DailyTss>, unsorted: seq<DailyTss>)
  {
    && (|sorted| == 0 <==> |unsorted| == 0)
    && Consecutive(sorted)
    && (forall i :: 0 <= i < |sorted| ==> sorted[i].tss == Tss(TssOn(unsorted, sorted[i].date)))
    && (|sorted| > 0 ==> sorted[0].date in Dates(unsorted) && sorted[|sorted| - 1].date in Dates(unsorted))
    && (|sorted| > 0 ==> forall d :: d in Dates(unsorted) ==> sorted[0].date <= d <= sorted[|sorted| - 1].date)
  }

  lemma {:induction false} ConsecutiveOffsets(s: seq<DailyTss>)
    requires Consecutive(s)
    ensures forall i :: 0 <= i < |s| ==> s[i].date == s[0].date + i
  {
    if |s| > 1 {
      var p := s[..|s| - 1];
      assert Consecutive(p) by {
        forall i | 0 <= i < |p| - 1 ensures p[i + 1].date == p[i].date + 1 {
          assert p[i] == s[i] && p[i + 1] == s[i + 1];
        }
      }
      ConsecutiveOffsets(p);
      forall i | 0 <= i < |s| ensures s[i].date == s[0].date + i {
        if i < |s| - 1 {
          assert s[i] == p[i];
        } else {
          assert s[i - 1] == p[i - 1];
        }
      }
    }
  }

  /** Every date from the earliest to the latest input date appears exactly
      once, at its offset from the earliest, so the length is max - min + 1. */
  lemma FilledCoversRange(sorted: seq<DailyTss>, unsorted: seq<DailyTss>, d: int)
    requires FilledFrom(sorted, unsorted) && |sorted| > 0
    requires sorted[0].date <= d <= sorted[|sorted| - 1].date
    ensures |sorted| == sorted[|sorted| - 1].date - sorted[0].date + 1
    ensures sorted[d - sorted[0].date].date == d
    ensures forall i :: 0 <= i < |sorted| && sorted[i].date == d ==> i == d - sorted[0].date
  {
    ConsecutiveOffsets(sorted);
  }

  /** A date's entries merge into one output entry carrying their sum. */
  lemma FilledMergesSameDate(sorted: seq<DailyTss>, unsorted: seq<DailyTss>, d: int)
    requires FilledFrom(sorted, unsorted)
    requires d in Dates(unsorted)
    ensures exists i :: 0 <= i < |sorted| && sorted[i] == DailyTss(d, Tss(TssOn(unsorted, d)))
  {
    FilledCoversRange(sorted, unsorted, d);
    var i := d - sorted[0].date;
    assert sorted[i] == DailyTss(d, Tss(TssOn(unsorted, d)));
  }

  /** Sum over the dates of `out` of the TSS that `s` has on each. */
  function TssOver(out: seq<DailyTss>, s: seq<DailyTss>): int
  {
    if |out| == 0 then 0 else TssOver(out[..|out| - 1], s) + TssOn(s, out[|out| - 1].date)
  }

  /** Sum over the dates of `out` of v on date e and 0 elsewhere. */
  function Hits(out: seq<DailyTss>, e: int, v: int): int
  {
    if |out| == 0 then 0 else Hits(out[..|out| - 1], e, v) + (if out[|out| - 1].date == e then v else 0)
  }

  predicate Increasing(out: seq<DailyTss>)
  {
    forall i, j :: 0 <= i < j < |out| ==> out[i].date < out[j].date
  }

  lemma {:induction false} TssOverSnoc(out: seq<DailyTss>, p: seq<DailyTss>, x: DailyTss)
    ensures TssOver(out, p + [x]) == TssOver(out, p) + Hits(out, x.date, x.tss.value)
  {
    if |out| > 0 {
      TssOverSnoc(out[..|out| - 1], p, x);
      assert (p + [x])[..|p + [x]| - 1] == p;
    }
  }

  lemma {:induction false} HitsOnce(out: seq<DailyTss>, e: int, v: int)
    requires Increasing(out)
    ensures Hits(out, e, v) == if e in Dates(out) then v else 0
  {
    if |out| > 0 {
      var p := out[..|out| - 1];
      HitsOnce(p, e, v);
      DatesSnoc(out, |out| - 1);
      assert out[..|out|] == out;
      forall j | 0 <= j < |p| ensures p[j].date < out[|out| - 1].date {
        assert out[j] == p[j];
      }
    }
  }

  lemma {:induction false} TssOverTotal(out: seq<DailyTss>, s: seq<DailyTss>)
    requires Increasing(out)
    requires Dates(s) <= Dates(out)
    ensures TssOver(out, s) == TotalTss(s)
  {
    if |s| > 0 {
      var p, x := s[..|s| - 1], s[|s| - 1];
      DatesSnoc(s, |s| - 1);
      assert s[..|s|] == s;
      TssOverTotal(out, p);
      assert p + [x] == s;
      TssOverSnoc(out, p, x);
      HitsOnce(out, x.date, x.tss.value);
    } else {
      TssOverZero(out, s);
    }
  }

  lemma {:induction false} TssOverZero(out: seq<DailyTss>, s: seq<DailyTss>)
    requires |s| == 0
    ensures TssOver(out, s) == 0
  {
    if |out| > 0 {
      TssOverZero(out[..|out| - 1], s);
    }
  }

  lemma {:induction false} TotalIsTssOver(out: seq<DailyTss>, s: seq<DailyTss>)
    requires forall i :: 0 <= i < |out| ==> out[i].tss == Tss(TssOn(s, out[i].date))
    ensures TotalTss(out) == TssOver(out, s)
  {
    if |out| > 0 {
      TotalIsTssOver(out[..|out| - 1], s);
    }
  }

  /** Gap days carry TSS 0, so the filled list holds exactly the input's
      total TSS. */
  lemma FilledKeepsTotal(sorted: seq<DailyTss>, unsorted: seq<DailyTss>)
    requires FilledFrom(sorted, unsorted)
    ensures TotalTss(sorted) == TotalTss(unsorted)
  {
    ConsecutiveOffsets(sorted);
    TotalIsTssOver(sorted, unsorted);
    if |sorted| > 0 {
      forall d | d in Dates(unsorted) ensures d in Dates(sorted) {
        FilledCoversRange(sorted, unsorted, d);
        assert sorted[d - sorted[0].date].date == d;
      }
    }
    TssOverTotal(sorted, unsorted);
  }

  // ---------------------------------------------------------------------------
  // calc_rolling_daily_stats

  /** The filter at the head of `calc_rolling_daily_stats`: with a last known
      day, the entries dated after it; without one, nothing at all. */
  function KeepAfter(lastKnown: Option<DailyStats>, s: seq<DailyTss>): seq<DailyTss>
  {
    if |s| == 0 then []
    else
      var p := KeepAfter(lastKnown, s[..|s| - 1]);
      if lastKnown.Some? && s[|s| - 1].date > lastKnown.value.date then p + [s[|s| - 1]] else p
  }

  /** The zero-TSS days that follow the last real day; the source chains an
      unbounded range here, of which the model takes `extraDays`. */
  function Extension(lastDay: int, extraDays: nat): (r: seq<DailyTss>)
    ensures |r| == extraDays
    ensures forall j :: 0 <= j < extraDays ==> r[j] == DailyTss(lastDay + j + 1, Tss(0))
  {
    seq(extraDays, j requires 0 <= j < extraDays => DailyTss(lastDay + j + 1, Tss(0)))
  }

  /** The starting state: the last known stats, or zero loads on the day
      before the first day. */
  function InitialStats(lastKnown: Option<DailyStats>, firstDay: int): DailyStats
  {
    match lastKnown
    case Some(stats) => stats
    case None => DailyStats(firstDay - 1, Tss(0), Ctl(0.0), Atl(0.0), Tsb(0.0))
  }

  /** `scan(init, ...)` as written: the closure reads its state but never
      writes it, so the state stays `init` and every day's stats are computed
      from it. */
  function ScanFromInit(init: DailyStats, days: seq<DailyTss>): (r: seq<DailyStats>)
    ensures |r| == |days|
  {
    if |days| == 0 then []
    else ScanFromInit(init, days[..|days| - 1]) + [CalcDailyStats(init, days[|days| - 1])]
  }

  /** Every result of the as-written scan is one step from init, whatever
      came before it. */
  lemma {:induction false} ScanFromInitSteps(init: DailyStats, days: seq<DailyTss>)
    ensures forall i :: 0 <= i < |days| ==> ScanFromInit(init, days)[i] == CalcDailyStats(init, days[i])
  {
    if |days| > 0 {
      var q := days[..|days| - 1];
      ScanFromInitSteps(init, q);
      var p, r := ScanFromInit(init, q), ScanFromInit(init, days);
      forall i | 0 <= i < |q| ensures r[i] == p[i] && q[i] == days[i] {
        assert r[..|p|][i] == r[i];
      }
    }
  }

  /** The state before the next day: the last produced stats, or init. */
  function LastOr(init: DailyStats, p: seq<DailyStats>): DailyStats
  {
    if |p| == 0 then init else p[|p| - 1]
  }

  /** The scan with the state carried over: each day's stats from the
      previous day's, as the recurrence intends. */
  function Scan(init: DailyStats, days: seq<DailyTss>): (r: seq<DailyStats>)
    ensures |r| == |days|
  {
    if |days| == 0 then []
    else
      var p := Scan(init, days[..|days| - 1]);
      p + [CalcDailyStats(LastOr(init, p), days[|days| - 1])]
  }

  /** The scan keeps each day's date and TSS, and each produced day follows
      from the one before it. */
  lemma {:induction false} ScanSteps(init: DailyStats, days: seq<DailyTss>)
    ensures forall i :: 0 <= i < |days| ==>
      Scan(init, days)[i].date == days[i].date && Scan(init, days)[i].tss == days[i].tss
    ensures |days| > 0 ==> Scan(init, days)[0] == CalcDailyStats(init, days[0])
    ensures forall i :: 0 < i < |days| ==> Scan(init, days)[i] == CalcDailyStats(Scan(init, days)[i - 1], days[i])
  {
    if |days| > 0 {
      var q := days[..|days| - 1];
      ScanSteps(init, q);
      var p, r := Scan(init, q), Scan(init, days);
      assert r[..|p|] == p;
      forall i | 0 <= i < |q| ensures r[i] == p[i] && q[i] == days[i] {
        assert r[..|p|][i] == r[i];
      }
    }
  }

  /** `calc_rolling_daily_stats` as written, with the unbounded tail cut at
      `extraDays` extension days: the filter, the scan over the kept days
      followed by the extension, and `skip(1)`. Each result is one step from
      the starting state, and the first computed day is not among them. */
  function RollingAsWritten(lastKnown: Option<DailyStats>, sorted: seq<DailyTss>, extraDays: nat): (r: seq<DailyStats>)
    ensures var kept := KeepAfter(lastKnown, sorted);
            |kept| > 0 ==>
              var days := kept + Extension(kept[|kept| - 1].date, extraDays);
              var init := InitialStats(lastKnown, kept[0].date);
              && |r| == |kept| + extraDays - 1
              && (forall i :: 0 <= i < |r| ==> r[i].date == days[i + 1].date && r[i].tss == days[i + 1].tss)
              && (forall i :: 0 <= i < |r| ==> r[i] == CalcDailyStats(init, days[i + 1]))
  {
    var kept := KeepAfter(lastKnown, sorted);
    if |kept| == 0 then []
    else
      var days := kept + Extension(kept[|kept| - 1].date, extraDays);
      var init := InitialStats(lastKnown, kept[0].date);
      ScanFromInitSteps(init, days);
      ScanFromInit(init, days)[1..]
  }

  /** The filter as a loop over the sorted entries. */
  method FilterAfter(lastKnown: Option<DailyStats>, sorted: seq<DailyTss>) returns (kept: seq<DailyTss>)
    ensures kept == KeepAfter(lastKnown, sorted)
  {
    kept := [];
    for i := 0 to |sorted|
      invariant kept == KeepAfter(lastKnown, sorted[..i])
    {
      assert sorted[..i + 1][..i] == sorted[..i];
      if lastKnown.Some? && sorted[i].date > lastKnown.value.date {
        kept := kept + [sorted[i]];
      }
    }
    assert sorted[..|sorted|] == sorted;
  }

  /** The loop form: filter, then compute every day from the scan's state,
      which nothing writes, and drop the first result. */
  method CalcRollingDailyStats(lastKnown: Option<DailyStats>, sorted: seq<DailyTss>, extraDays: nat)
    returns (out: seq<DailyStats>)
    ensures out == RollingAsWritten(lastKnown, sorted, extraDays)
  {
    var kept := FilterAfter(lastKnown, sorted);
    if |kept| == 0 {
      return [];
    }
    var init := InitialStats(lastKnown, kept[0].date);
    var days := kept + Extension(kept[|kept| - 1].date, extraDays);
    var all: seq<DailyStats> := [];
    var yesterday := init;
    for i := 0 to |days|
      invariant all == ScanFromInit(init, days[..i])
    {
      assert days[..i + 1][..i] == days[..i];
      var next := CalcDailyStats(yesterday, days[i]);
      all := all + [next];
    }
    assert days[..|days|] == days;
    out := all[1..];
  }

  /** The filter keeps exactly the entries after the last known day, and
      nothing when there is no last known day. */
  lemma {:induction false} KeepAfterSpec(lastKnown: Option<DailyStats>, s: seq<DailyTss>)
    ensures lastKnown.None? ==> KeepAfter(lastKnown, s) == []
    ensures lastKnown.Some? ==> forall x :: x in KeepAfter(lastKnown, s) <==> x in s && x.date > lastKnown.value.date
  {
    if |s| > 0 {
      KeepAfterSpec(lastKnown, s[..|s| - 1]);
      assert s == s[..|s| - 1] + [s[|s| - 1]];
    }
  }

  /** With no last known day the result is always empty. */
  lemma RollingNoneIsEmpty(sorted: seq<DailyTss>, extraDays: nat)
    ensures RollingAsWritten(None, sorted, extraDays) == []
  {
    KeepAfterSpec(None, sorted);
  }

  /** The loads never build up: two days with the same TSS get the same CTL,
      ATL and TSB, however many days lie between them. */
  lemma RollingForgetsHistory(stats: DailyStats, sorted: seq<DailyTss>, extraDays: nat, i: nat, j: nat)
    requires i < j < |RollingAsWritten(Some(stats), sorted, extraDays)|
    requires RollingAsWritten(Some(stats), sorted, extraDays)[i].tss == RollingAsWritten(Some(stats), sorted, extraDays)[j].tss
    ensures var r := RollingAsWritten(Some(stats), sorted, extraDays);
            r[i].ctl == r[j].ctl && r[i].atl == r[j].atl && r[i].tsb == r[j].tsb
  {
    var r := RollingAsWritten(Some(stats), sorted, extraDays);
    var kept := KeepAfter(Some(stats), sorted);
    var days := kept + Extension(kept[|kept| - 1].date, extraDays);
    assert r[i] == CalcDailyStats(stats, days[i + 1]) && r[j] == CalcDailyStats(stats, days[j + 1]);
    SameTssSameStats(stats, days[i + 1], days[j + 1]);
  }

  /** Three days at TSS 100 after a zero-load day D: the two results (the
      first is skipped) both carry the first-day CTL of about 2.353. */
  lemma RollingRepeatsFirstDay(d: int)
    ensures var init := DailyStats(d, Tss(0), Ctl(0.0), Atl(0.0), Tsb(0.0));
            var s := [DailyTss(d + 1, Tss(100)), DailyTss(d + 2, Tss(100)), DailyTss(d + 3, Tss(100))];
            var r := RollingAsWritten(Some(init), s, 0);
            |r| == 2 && r[0].ctl == r[1].ctl && 2.352 < r[1].ctl.value < 2.354
  {
    var init := DailyStats(d, Tss(0), Ctl(0.0), Atl(0.0), Tsb(0.0));
    var s := [DailyTss(d + 1, Tss(100)), DailyTss(d + 2, Tss(100)), DailyTss(d + 3, Tss(100))];
    KeepAfterAll(init, s);
    assert s + Extension(s[2].date, 0) == s;
    var r := RollingAsWritten(Some(init), s, 0);
    assert r[0] == CalcDailyStats(init, s[1]) && r[1] == CalcDailyStats(init, s[2]);
    SameTssSameStats(init, s[1], s[2]);
    FirstDayFromZero(d + 3);
  }

  /** The stats of a day depend on its TSS, not on its date. */
  lemma SameTssSameStats(yesterday: DailyStats, a: DailyTss, b: DailyTss)
    requires a.tss == b.tss
    ensures CalcDailyStats(yesterday, a).ctl == CalcDailyStats(yesterday, b).ctl
    ensures CalcDailyStats(yesterday, a).atl == CalcDailyStats(yesterday, b).atl
    ensures CalcDailyStats(yesterday, a).tsb == CalcDailyStats(yesterday, b).tsb
  {
  }

  /** Entries all dated after the last known day are all kept. */
  lemma {:induction false} KeepAfterAll(stats: DailyStats, s: seq<DailyTss>)
    requires forall i :: 0 <= i < |s| ==> s[i].date > stats.date
    ensures KeepAfter(Some(stats), s) == s
  {
    if |s| > 0 {
      KeepAfterAll(stats, s[..|s| - 1]);
      assert s[..|s| - 1] + [s[|s| - 1]] == s;
    }
  }

  /** The extension days after the last real day are consecutive with TSS 0. */
  lemma RollingTail(stats: DailyStats, sorted: seq<DailyTss>, extraDays: nat, j: nat)
    requires |KeepAfter(Some(stats), sorted)| > 0 && j < extraDays
    ensures var kept := KeepAfter(Some(stats), sorted);
            var r := RollingAsWritten(Some(stats), sorted, extraDays);
            r[|kept| - 1 + j].date == kept[|kept| - 1].date + j + 1 && r[|kept| - 1 + j].tss == Tss(0)
  {
    var kept := KeepAfter(Some(stats), sorted);
    var ext := Extension(kept[|kept| - 1].date, extraDays);
    var days := kept + ext;
    var r := RollingAsWritten(Some(stats), sorted, extraDays);
    var k := |kept| - 1 + j;
    assert r[k].date == days[k + 1].date && r[k].tss == days[k + 1].tss;
    assert days[k + 1] == ext[j];
  }

  /** A day right after the last known one, with no extension days, yields
      nothing: that day's stats are lost. */
  lemma RollingDropsOnlyDay(stats: DailyStats)
    ensures RollingAsWritten(Some(stats), [DailyTss(stats.date + 1, Tss(100))], 0) == []
  {
    var s := [DailyTss(stats.date + 1, Tss(100))];
    assert KeepAfter(Some(stats), s[..0]) == [];
  }

  // Intended behaviour: every kept day produces its stats, and without a last
  // known day every entry is kept, starting from zero loads.

  function KeepIntended(lastKnown: Option<DailyStats>, s: seq<DailyTss>): seq<DailyTss>
  {
    if |s| == 0 then []
    else
      var p := KeepIntended(lastKnown, s[..|s| - 1]);
      if lastKnown.None? || s[|s| - 1].date > lastKnown.value.date then p + [s[|s| - 1]] else p
  }

  /** The corrected driver: the filter keeps everything when there is no last
      known day, each day's stats feed the next day, and no computed day is
      skipped. */
  function RollingIntended(lastKnown: Option<DailyStats>, sorted: seq<DailyTss>, extraDays: nat): seq<DailyStats>
  {
    var kept := KeepIntended(lastKnown, sorted);
    if |kept| == 0 then []
    else
      var days := kept + Extension(kept[|kept| - 1].date, extraDays);
      Scan(InitialStats(lastKnown, kept[0].date), days)
  }

  lemma {:induction false} KeepIntendedNone(s: seq<DailyTss>)
    ensures KeepIntended(None, s) == s
  {
    if |s| > 0 {
      KeepIntendedNone(s[..|s| - 1]);
    }
  }

  /** One result per kept day and extension day, the first derived from the
      starting state and each later one from the result before it; without a
      last known day every input day is covered. */
  lemma RollingIntendedShape(lastKnown: Option<DailyStats>, sorted: seq<DailyTss>, extraDays: nat)
    requires |KeepIntended(lastKnown, sorted)| > 0
    ensures var kept := KeepIntended(lastKnown, sorted);
            var days := kept + Extension(kept[|kept| - 1].date, extraDays);
            var r := RollingIntended(lastKnown, sorted, extraDays);
            && |r| == |kept| + extraDays
            && (forall i :: 0 <= i < |r| ==> r[i].date == days[i].date && r[i].tss == days[i].tss)
            && r[0] == CalcDailyStats(InitialStats(lastKnown, kept[0].date), kept[0])
            && (forall i :: 0 < i < |r| ==> r[i] == CalcDailyStats(r[i - 1], days[i]))
            && (lastKnown.None? ==> kept == sorted)
  {
    var kept := KeepIntended(lastKnown, sorted);
    var days := kept + Extension(kept[|kept| - 1].date, extraDays);
    ScanSteps(InitialStats(lastKnown, kept[0].date), days);
    KeepIntendedNone(sorted);
  }

  /** The corrected driver keeps the day the as-written one drops. */
  lemma RollingIntendedKeepsOnlyDay(stats: DailyStats)
    ensures var s := [DailyTss(stats.date + 1, Tss(100))];
            RollingIntended(Some(stats), s, 0) == [CalcDailyStats(stats, s[0])]
  {
    var s := [DailyTss(stats.date + 1, Tss(100))];
    assert KeepIntended(Some(stats), s[..0]) == [];
    assert KeepIntended(Some(stats), s) == s;
    assert s + Extension(s[0].date, 0) == s;
  }

  /** The corrected driver on the same three days: every day is kept and CTL
      builds up from day to day. */
  lemma RollingIntendedAccumulates(d: int)
    ensures var init := DailyStats(d, Tss(0), Ctl(0.0), Atl(0.0), Tsb(0.0));
            var s := [DailyTss(d + 1, Tss(100)), DailyTss(d + 2, Tss(100)), DailyTss(d + 3, Tss(100))];
            var r := RollingIntended(Some(init), s, 0);
            |r| == 3 && r[0].ctl.value < r[1].ctl.value < r[2].ctl.value && 4.65 < r[1].ctl.value
  {
    var init := DailyStats(d, Tss(0), Ctl(0.0), Atl(0.0), Tsb(0.0));
    var s := [DailyTss(d + 1, Tss(100)), DailyTss(d + 2, Tss(100)), DailyTss(d + 3, Tss(100))];
    KeepIntendedAll(init, s);
    assert s + Extension(s[2].date, 0) == s;
    RollingIntendedShape(Some(init), s, 0);
    var r := RollingIntended(Some(init), s, 0);
    FirstDayFromZero(d + 1);
    TrainingLoadRises(42, r[0].ctl.value, s[1]);
    TrainingLoadRises(42, r[1].ctl.value, s[2]);
    assert ExpNegInverse(42) == 20917.0 / 21421.0;
  }

  lemma {:induction false} KeepIntendedAll(stats: DailyStats, s: seq<DailyTss>)
    requires forall i :: 0 <= i < |s| ==> s[i].date > stats.date
    ensures KeepIntended(Some(stats), s) == s
  {
    if |s| > 0 {
      KeepIntendedAll(stats, s[..|s| - 1]);
      assert s[..|s| - 1] + [s[|s| - 1]] == s;
    }
  }
}
