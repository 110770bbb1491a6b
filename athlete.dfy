/** The athlete's threshold timeline (src/athlete.rs): dated FTP, FTHr and
    body-weight records, sorted once by date, and the step-function lookup of
    the threshold in force on a given day. */
module Athlete {
  import opened Prelude
  import opened Measurements

  /** One threshold measurement; body weight is an f64 in kilograms. */
  datatype MeasurementRecord = FTP(ftp: Power) | FTHr(fthr: HeartRate) | Weight(kg: real)

  /** A record with its date (a day number). */
  datatype Dated = Dated(date: int, record: MeasurementRecord)

  /** The list of records inside `MeasurementRecords`. */
  datatype RecordList = RecordList(entries: seq<Dated>)

  /** `MeasurementRecords`: its field is private and only `new` builds it, so
      its records are always in ascending date order. */
  type MeasurementRecords = r: RecordList | SortedByDate(r.entries) witness RecordList([])

  /** `MeasurementRecord::get_ftp` */
  function GetFtp(m: MeasurementRecord): (r: Option<Power>)
    ensures r.Some? <==> m.FTP?
    ensures r.Some? ==> m == FTP(r.value)
  {
    match m
    case FTP(power) => Some(power)
    case _ => None
  }

  /** `MeasurementRecord::get_fthr` */
  function GetFthr(m: MeasurementRecord): (r: Option<HeartRate>)
    ensures r.Some? <==> m.FTHr?
    ensures r.Some? ==> m == FTHr(r.value)
  {
    match m
    case FTHr(hr) => Some(hr)
    case _ => None
  }

  // ---------------------------------------------------------------------------
  // Sorting by date

  predicate SortedByDate(s: seq<Dated>)
  {
    forall i, j :: 0 <= i < j < |s| ==> s[i].date <= s[j].date
  }

  /** Where a stable insertion puts a record dated d: after every trailing
      record dated d or earlier, scanning back from the end. */
  function InsertPos(s: seq<Dated>, d: int): (k: nat)
    ensures k <= |s|
    ensures forall i :: k <= i < |s| ==> s[i].date > d
    ensures k > 0 ==> s[k - 1].date <= d
  {
    if |s| == 0 || s[|s| - 1].date <= d then |s| else InsertPos(s[..|s| - 1], d)
  }

  /** Any position with everything after it later than d, and the record before
      it (if any) not later, is the insertion position. */
  lemma {:induction false} InsertPosUnique(s: seq<Dated>, d: int, j: nat)
    requires j <= |s|
    requires forall i :: j <= i < |s| ==> s[i].date > d
    requires j > 0 ==> s[j - 1].date <= d
    ensures InsertPos(s, d) == j
  {
    if |s| > 0 && s[|s| - 1].date > d {
      InsertPosUnique(s[..|s| - 1], d, j);
    }
  }

  function InsertByDate(s: seq<Dated>, x: Dated): (r: seq<Dated>)
  {
    var k := InsertPos(s, x.date);
    s[..k] + [x] + s[k..]
  }

  /** The specification of `new`: a stable sort by date (`sort_by` on the dates). */
  function SortByDate(s: seq<Dated>): (r: seq<Dated>)
    ensures |r| == |s|
  {
    if |s| == 0 then [] else InsertByDate(SortByDate(s[..|s| - 1]), s[|s| - 1])
  }

  lemma InsertKeepsSorted(s: seq<Dated>, x: Dated)
    requires SortedByDate(s)
    ensures SortedByDate(InsertByDate(s, x))
  {
    var k := InsertPos(s, x.date);
    var r := InsertByDate(s, x);
    assert forall i :: 0 <= i < k ==> s[i].date <= x.date by {
      forall i | 0 <= i < k ensures s[i].date <= x.date {
        assert s[i].date <= s[k - 1].date;
      }
    }
    forall i, j | 0 <= i < j < |r| ensures r[i].date <= r[j].date {
      if j < k {
        assert r[i] == s[i] && r[j] == s[j];
      } else if j == k {
        assert r[i] == s[i] && r[j] == x;
      } else if i < k {
        assert r[i] == s[i] && r[j] == s[j - 1];
      } else if i == k {
        assert r[i] == x && r[j] == s[j - 1];
      } else {
        assert r[i] == s[i - 1] && r[j] == s[j - 1];
      }
    }
  }

  /** `new` yields ascending dates. */
  lemma {:induction false} SortByDateSorted(s: seq<Dated>)
    ensures SortedByDate(SortByDate(s))
  {
    if |s| > 0 {
      SortByDateSorted(s[..|s| - 1]);
      InsertKeepsSorted(SortByDate(s[..|s| - 1]), s[|s| - 1]);
    }
  }

  lemma InsertPermutes(t: seq<Dated>, x: Dated)
    ensures multiset(InsertByDate(t, x)) == multiset(t) + multiset{x}
  {
    var k := InsertPos(t, x.date);
    var pre, post := t[..k], t[k..];
    assert InsertByDate(t, x) == pre + [x] + post;
    assert t == pre + post;
  }

  lemma MultisetSnoc(s: seq<Dated>)
    requires |s| > 0
    ensures multiset(s) == multiset(s[..|s| - 1]) + multiset{s[|s| - 1]}
  {
    assert s == s[..|s| - 1] + [s[|s| - 1]];
  }

  /** `new` neither loses nor invents a record. */
  lemma {:induction false} SortByDatePermutes(s: seq<Dated>)
    ensures multiset(SortByDate(s)) == multiset(s)
  {
    if |s| > 0 {
      var prefix, x := s[..|s| - 1], s[|s| - 1];
      var t := SortByDate(prefix);
      SortByDatePermutes(prefix);
      InsertPermutes(t, x);
      MultisetSnoc(s);
    }
  }

  /** `new` leaves already date-sorted records as they are. */
  lemma {:induction false} SortByDateKeepsSorted(s: seq<Dated>)
    requires SortedByDate(s)
    ensures SortByDate(s) == s
  {
    if |s| > 0 {
      var prefix, x := s[..|s| - 1], s[|s| - 1];
      SortByDateKeepsSorted(prefix);
      InsertPosUnique(prefix, x.date, |prefix|);
      assert prefix[..|prefix|] + [x] + prefix[|prefix|..] == s;
    }
  }

  /** The records of one date, in their order. */
  function OnDate(s: seq<Dated>, d: int): (r: seq<Dated>)
    ensures forall i :: 0 <= i < |r| ==> r[i].date == d
  {
    if |s| == 0 then []
    else OnDate(s[..|s| - 1], d) + (if s[|s| - 1].date == d then [s[|s| - 1]] else [])
  }

  lemma {:induction false} OnDateAppend(s: seq<Dated>, t: seq<Dated>, d: int)
    ensures OnDate(s + t, d) == OnDate(s, d) + OnDate(t, d)
  {
    if |t| == 0 {
      assert s + t == s;
    } else {
      assert (s + t)[..|s + t| - 1] == s + t[..|t| - 1];
      OnDateAppend(s, t[..|t| - 1], d);
    }
  }

  lemma {:induction false} OnDateNone(s: seq<Dated>, d: int)
    requires forall i :: 0 <= i < |s| ==> s[i].date != d
    ensures OnDate(s, d) == []
  {
    if |s| > 0 {
      OnDateNone(s[..|s| - 1], d);
    }
  }

  lemma OnDateSingle(x: Dated, d: int)
    ensures OnDate([x], d) == (if x.date == d then [x] else [])
  {
    assert [x][..0] == [];
  }

  lemma OnDateAroundOne(pre: seq<Dated>, x: Dated, post: seq<Dated>, d: int)
    ensures OnDate(pre + [x] + post, d) == OnDate(pre, d) + OnDate([x], d) + OnDate(post, d)
  {
    OnDateAppend(pre + [x], post, d);
    OnDateAppend(pre, [x], d);
  }

  /** Inserting x in front of records all dated after it adds x to the end of
      its own date's records and changes no other date's. */
  lemma InsertOnDate(pre: seq<Dated>, x: Dated, post: seq<Dated>, d: int)
    requires forall i :: 0 <= i < |post| ==> post[i].date > x.date
    ensures OnDate(pre + [x] + post, d)
         == OnDate(pre + post, d) + (if x.date == d then [x] else [])
  {
    OnDateAroundOne(pre, x, post, d);
    OnDateAppend(pre, post, d);
    OnDateSingle(x, d);
    if x.date == d {
      OnDateNone(post, d);
    }
  }

  /** `new` is stable: the records sharing a date keep their input order. */
  lemma {:induction false} SortByDateStable(s: seq<Dated>, d: int)
    ensures OnDate(SortByDate(s), d) == OnDate(s, d)
  {
    if |s| > 0 {
      SortByDateStable(s[..|s| - 1], d);
      InsertByDateOnDate(SortByDate(s[..|s| - 1]), s[|s| - 1], d);
    }
  }

  /** Inserting by date appends the new record to its own date's records. */
  lemma InsertByDateOnDate(t: seq<Dated>, x: Dated, d: int)
    ensures OnDate(InsertByDate(t, x), d) == OnDate(t, d) + (if x.date == d then [x] else [])
  {
    var k := InsertPos(t, x.date);
    InsertOnDate(t[..k], x, t[k..], d);
    assert t[..k] + t[k..] == t;
  }

  /** One step of the insertion sort: shifts the later-dated records of the
      sorted prefix a[..i] one place right and drops a[i] into the gap. */
  method InsertInPlace(a: array<Dated>, i: nat)
    requires i < a.Length
    modifies a
    ensures a[..i + 1] == InsertByDate(old(a[..i]), old(a[i]))
    ensures a[i + 1..] == old(a[i + 1..])
  {
    var x := a[i];
    ghost var sorted := a[..i];
    var j := i;
    while j > 0 && a[j - 1].date > x.date
      invariant 0 <= j <= i
      invariant forall k :: 0 <= k < j ==> a[k] == sorted[k]
      invariant forall k :: j < k <= i ==> a[k] == sorted[k - 1]
      invariant forall k :: i < k < a.Length ==> a[k] == old(a[k])
      invariant forall k :: j <= k < i ==> sorted[k].date > x.date
    {
      a[j] := a[j - 1];
      j := j - 1;
    }
    a[j] := x;
    InsertPosUnique(sorted, x.date, j);
    ShiftedInsert(sorted, x, j, a[..i + 1]);
  }

  /** A sequence that agrees with s before j, holds x at j and s shifted by one
      after it is s with x inserted at j. */
  lemma ShiftedInsert(s: seq<Dated>, x: Dated, j: nat, r: seq<Dated>)
    requires j <= |s| && |r| == |s| + 1
    requires forall k :: 0 <= k < j ==> r[k] == s[k]
    requires r[j] == x
    requires forall k :: j < k < |r| ==> r[k] == s[k - 1]
    ensures r == s[..j] + [x] + s[j..]
  {
    var t := s[..j] + [x] + s[j..];
    assert forall k :: 0 <= k < |r| ==> r[k] == t[k];
  }

  /** `MeasurementRecords::new`: sorts the given slice in place by date with a
      stable insertion sort, then copies it into the records. */
  method New(measurements: array<Dated>) returns (records: MeasurementRecords)
    modifies measurements
    ensures measurements[..] == SortByDate(old(measurements[..]))
    ensures records.entries == measurements[..]
  {
    ghost var input := measurements[..];
    var i := 0;
    while i < measurements.Length
      invariant 0 <= i <= measurements.Length
      invariant measurements[..i] == SortByDate(input[..i])
      invariant measurements[i..] == input[i..]
    {
      InsertInPlace(measurements, i);
      assert input[..i + 1][..i] == input[..i];
      i := i + 1;
    }
    assert input[..i] == input;
    SortByDateSorted(input);
    records := RecordList(measurements[..]);
  }

  // ---------------------------------------------------------------------------
  // The threshold in force on a date

  /** `filter_map(|(d, m)| Some((*d, getter(m)?)))` */
  function FilterMap<T>(s: seq<Dated>, getter: MeasurementRecord -> Option<T>): (r: seq<(int, T)>)
    ensures |r| <= |s|
  {
    if |s| == 0 then []
    else match getter(s[0].record)
      case None => FilterMap(s[1..], getter)
      case Some(v) => [(s[0].date, v)] + FilterMap(s[1..], getter)
  }

  /** `take_while(|(d, _)| d <= date)` */
  function TakeWhileUpTo<T>(s: seq<(int, T)>, date: int): (r: seq<(int, T)>)
    ensures |r| <= |s|
  {
    if |s| == 0 || s[0].0 > date then [] else [s[0]] + TakeWhileUpTo(s[1..], date)
  }

  function Last<T>(s: seq<T>): (r: Option<T>)
    ensures r.None? <==> |s| == 0
    ensures r.Some? ==> r.value == s[|s| - 1]
  {
    if |s| == 0 then None else Some(s[|s| - 1])
  }

  /** `MeasurementRecords::get_actual` */
  function GetActual<T>(s: seq<Dated>, date: int, getter: MeasurementRecord -> Option<T>): Option<T>
  {
    match Last(TakeWhileUpTo(FilterMap(s, getter), date))
    case None => None
    case Some(m) => Some(m.1)
  }

  /** `get_actual_ftp` */
  function GetActualFtp(records: MeasurementRecords, date: int): (r: Option<Power>)
    ensures r == Latest(records.entries, date, GetFtp)
  {
    GetActualIsLatest(records.entries, date, GetFtp);
    GetActual(records.entries, date, GetFtp)
  }

  /** `get_actual_fthr` */
  function GetActualFthr(records: MeasurementRecords, date: int): (r: Option<HeartRate>)
    ensures r == Latest(records.entries, date, GetFthr)
  {
    GetActualIsLatest(records.entries, date, GetFthr);
    GetActual(records.entries, date, GetFthr)
  }

  /** Whether record i is of the looked-up kind and dated on or before the date. */
  predicate Qualifies<T>(s: seq<Dated>, i: int, date: int, getter: MeasurementRecord -> Option<T>)
    requires 0 <= i < |s|
  {
    getter(s[i].record).Some? && s[i].date <= date
  }

  /** Reference definition of the lookup: the value of the last qualifying
      record, None when no record qualifies. */
  function Latest<T>(s: seq<Dated>, date: int, getter: MeasurementRecord -> Option<T>): (r: Option<T>)
    ensures r.None? <==> forall i :: 0 <= i < |s| ==> !Qualifies(s, i, date, getter)
    ensures r.Some? ==> exists i :: (0 <= i < |s| && Qualifies(s, i, date, getter)
      && getter(s[i].record) == r
      && forall j :: i < j < |s| ==> !Qualifies(s, j, date, getter))
  {
    if |s| == 0 then None
    else
      var rest := Latest(s[1..], date, getter);
      if rest.Some? then
        ghost var i' :| 0 <= i' < |s| - 1 && Qualifies(s[1..], i', date, getter)
          && getter(s[1..][i'].record) == rest
          && forall j :: i' < j < |s| - 1 ==> !Qualifies(s[1..], j, date, getter);
        assert Qualifies(s, i' + 1, date, getter);
        assert forall j :: i' + 1 < j < |s| ==> !Qualifies(s, j, date, getter) by {
          forall j | i' + 1 < j < |s| ensures !Qualifies(s, j, date, getter) {
            assert !Qualifies(s[1..], j - 1, date, getter);
          }
        }
        rest
      else if getter(s[0].record).Some? && s[0].date <= date then
        assert Qualifies(s, 0, date, getter);
        assert forall j :: 0 < j < |s| ==> !Qualifies(s, j, date, getter) by {
          forall j | 0 < j < |s| ensures !Qualifies(s, j, date, getter) {
            assert !Qualifies(s[1..], j - 1, date, getter);
          }
        }
        getter(s[0].record)
      else
        assert forall j :: 0 <= j < |s| ==> !Qualifies(s, j, date, getter) by {
          forall j | 0 < j < |s| ensures !Qualifies(s, j, date, getter) {
            assert !Qualifies(s[1..], j - 1, date, getter);
          }
        }
        None
  }

  /** On date-sorted records, `get_actual` is the reference lookup: the value of
      the last record of the kind dated on or before the date, or None. */
  lemma {:induction false} GetActualIsLatest<T>(s: seq<Dated>, date: int, getter: MeasurementRecord -> Option<T>)
    requires SortedByDate(s)
    ensures GetActual(s, date, getter) == Latest(s, date, getter)
  {
    if |s| > 0 {
      var t := s[1..];
      assert SortedByDate(t) by {
        forall i, j | 0 <= i < j < |t| ensures t[i].date <= t[j].date {
          assert t[i] == s[i + 1] && t[j] == s[j + 1];
        }
      }
      GetActualIsLatest(t, date, getter);
      match getter(s[0].record)
      case None =>
        assert FilterMap(s, getter) == FilterMap(t, getter);
      case Some(v) =>
        var fm := FilterMap(s, getter);
        assert fm == [(s[0].date, v)] + FilterMap(t, getter);
        if s[0].date > date {
          assert TakeWhileUpTo(fm, date) == [];
          forall i | 0 <= i < |t| ensures !Qualifies(t, i, date, getter) {
            assert s[0].date <= s[i + 1].date;
          }
        } else {
          assert fm[1..] == FilterMap(t, getter);
          var tw := TakeWhileUpTo(FilterMap(t, getter), date);
          assert TakeWhileUpTo(fm, date) == [(s[0].date, v)] + tw;
        }
    }
  }

  /** The records of the kind the getter selects. */
  function OfKind<T>(s: seq<Dated>, getter: MeasurementRecord -> Option<T>): (r: seq<Dated>)
    ensures forall i :: 0 <= i < |r| ==> getter(r[i].record).Some?
  {
    if |s| == 0 then []
    else if getter(s[0].record).Some? then [s[0]] + OfKind(s[1..], getter)
    else OfKind(s[1..], getter)
  }

  /** Records of other kinds never affect a lookup: FTHr and weight records do
      not change the FTP in force, and FTP and weight records do not change the
      FTHr in force. */
  lemma {:induction false} OtherKindsIgnored<T>(s: seq<Dated>, date: int, getter: MeasurementRecord -> Option<T>)
    ensures GetActual(s, date, getter) == GetActual(OfKind(s, getter), date, getter)
  {
    FilterMapOfKind(s, getter);
  }

  lemma {:induction false} FilterMapOfKind<T>(s: seq<Dated>, getter: MeasurementRecord -> Option<T>)
    ensures FilterMap(s, getter) == FilterMap(OfKind(s, getter), getter)
  {
    if |s| > 0 {
      FilterMapOfKind(s[1..], getter);
      if getter(s[0].record).Some? {
        var k := OfKind(s, getter);
        assert k == [s[0]] + OfKind(s[1..], getter);
        assert k[1..] == OfKind(s[1..], getter);
      }
    }
  }

  /** Before any FTP record (or with none at all) there is no FTP. */
  lemma NoFtpBeforeFirstRecord(records: MeasurementRecords, date: int)
    requires forall i :: 0 <= i < |records.entries| && records.entries[i].record.FTP?
               ==> records.entries[i].date > date
    ensures GetActualFtp(records, date).None?
  {
  }

  /** On or after the date of the last FTP record, the lookup yields that
      record's FTP. */
  lemma LatestFtpAfterLastRecord(records: MeasurementRecords, i: nat, date: int)
    requires i < |records.entries| && records.entries[i].record.FTP?
    requires forall j :: i < j < |records.entries| ==> !records.entries[j].record.FTP?
    requires records.entries[i].date <= date
    ensures GetActualFtp(records, date) == Some(records.entries[i].record.ftp)
  {
    var s := records.entries;
    assert Qualifies(s, i, date, GetFtp);
    var r := Latest(s, date, GetFtp);
    var k :| 0 <= k < |s| && Qualifies(s, k, date, GetFtp) && GetFtp(s[k].record) == r
      && forall j :: k < j < |s| ==> !Qualifies(s, j, date, GetFtp);
  }

  /** FTPs of 200, 210 and 220 W set on 2022-07-08, 2022-08-08 and 2022-09-08
      (day numbers 19181, 19212, 19243): on 2022-09-01 (19236) the FTP is 210 W. */
  lemma FindFtpExample(records: MeasurementRecords)
    requires records.entries == SortByDate(
               [Dated(19181, FTP(Power(200))), Dated(19212, FTP(Power(210))),
                Dated(19243, FTP(Power(220)))])
    ensures GetActualFtp(records, 19236) == Some(Power(210))
  {
    var s := [Dated(19181, FTP(Power(200))), Dated(19212, FTP(Power(210))),
              Dated(19243, FTP(Power(220)))];
    SortByDateKeepsSorted(s);
    FindFtpExampleLookup(s);
  }

  lemma FindFtpExampleLookup(s: seq<Dated>)
    requires s == [Dated(19181, FTP(Power(200))), Dated(19212, FTP(Power(210))),
                   Dated(19243, FTP(Power(220)))]
    ensures GetActual(s, 19236, GetFtp) == Some(Power(210))
  {
    var fm := [(19181, Power(200)), (19212, Power(210)), (19243, Power(220))];
    assert FilterMap(s[2..], GetFtp) == fm[2..];
    assert FilterMap(s[1..], GetFtp) == fm[1..] by {
      assert s[1..][1..] == s[2..];
    }
    assert FilterMap(s, GetFtp) == fm;
    assert TakeWhileUpTo(fm[2..], 19236) == [];
    assert TakeWhileUpTo(fm[1..], 19236) == [fm[1]] by {
      assert fm[1..][1..] == fm[2..];
    }
    assert TakeWhileUpTo(fm, 19236) == [fm[0], fm[1]];
  }
}
